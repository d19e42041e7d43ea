/** The layout viewport width in CSS pixels, computed once at start-up from
    three DOM measurements (`clientWidth` and `offsetWidth` of the document
    element, `clientWidth` of the body) and a screen-width fallback. A width
    is `Some(n)` when the measurement is a number and `None` when it is NaN;
    the fallback `ceil(screen.width / devicePixelRatio)` is given as an
    `Option<int>` (None: NaN). The JavaScript `x || y` on numbers treats 0 and
    NaN as false. */
module ViewportWidth {
  import opened Wrappers

  /** The entries of `widths` that are numbers, in their order (NaN entries dropped). */
  function Numbers(widths: seq<Option<int>>): (r: seq<int>)
    ensures |r| <= |widths|
    decreases |widths|
  {
    if widths == [] then []
    else
      var init := widths[..|widths| - 1];
      assert widths == init + [widths[|widths| - 1]];
      match widths[|widths| - 1]
      case Some(w) => Numbers(init) + [w]
      case None => Numbers(init)
  }

  /** `Numbers` keeps exactly the numeric measurements. */
  lemma {:induction false} NumbersMembers(widths: seq<Option<int>>)
    ensures forall x :: x in Numbers(widths) <==> Some(x) in widths
    decreases |widths|
  {
    if widths != [] {
      var init := widths[..|widths| - 1];
      assert widths == init + [widths[|widths| - 1]];
      NumbersMembers(init);
    }
  }

  function Max(s: seq<int>): (m: int)
    requires s != []
    ensures m in s
    ensures forall x :: x in s ==> x <= m
  {
    if |s| == 1 then s[0]
    else
      var rest := Max(s[1..]);
      assert forall x :: x in s ==> x == s[0] || x in s[1..];
      if s[0] > rest then s[0] else rest
  }

  function Min(a: int, b: int): (m: int)
    ensures m <= a && m <= b
    ensures m == a || m == b
  {
    if a < b then a else b
  }

  /** What `getViewportWidthInCssPixels` returns: the widest measurement,
      capped by the fallback when that is a number; then, if that is missing
      or 0, the fallback; then, if that is missing or 0 too, 0. */
  function Width(widths: seq<Option<int>>, fallback: Option<int>): int {
    var valid := Numbers(widths);
    var width: Option<int> :=
      if valid == [] then None
      else if fallback.Some? then Some(Min(fallback.value, Max(valid)))
      else Some(Max(valid));
    if width.Some? && width.value != 0 then width.value
    else if fallback.Some? && fallback.value != 0 then fallback.value
    else 0
  }

  lemma {:induction false} NumbersAppend(a: seq<Option<int>>, b: seq<Option<int>>)
    ensures Numbers(a + b) == Numbers(a) + Numbers(b)
    decreases |b|
  {
    if b == [] {
      assert a + b == a;
    } else {
      var init := b[..|b| - 1];
      assert (a + b)[..|a + b| - 1] == a + init;
      assert (a + b)[|a + b| - 1] == b[|b| - 1];
      NumbersAppend(a, init);
    }
  }

  /** Splicing out a NaN entry leaves the numbers, and their order, unchanged. */
  lemma NumbersSkipNaN(ws: seq<Option<int>>, i: nat)
    requires i < |ws| && ws[i].None?
    ensures Numbers(ws[..i] + ws[i + 1..]) == Numbers(ws)
  {
    assert ws == ws[..i] + [ws[i]] + ws[i + 1..];
    NumbersAppend(ws[..i] + [ws[i]], ws[i + 1..]);
    NumbersAppend(ws[..i], [ws[i]]);
    NumbersAppend(ws[..i], ws[i + 1..]);
    assert [ws[i]][..0] == [];
  }

  /** Of a list with no NaN entry, `Numbers` drops nothing. */
  lemma {:induction false} NumbersOfNumbers(ws: seq<Option<int>>)
    requires forall k :: 0 <= k < |ws| ==> ws[k].Some?
    ensures |Numbers(ws)| == |ws|
    ensures forall k :: 0 <= k < |ws| ==> ws[k] == Some(Numbers(ws)[k])
    decreases |ws|
  {
    if ws != [] {
      var init := ws[..|ws| - 1];
      var last := ws[|ws| - 1];
      assert forall k :: 0 <= k < |init| ==> init[k] == ws[k];
      NumbersOfNumbers(init);
      assert Numbers(ws) == Numbers(init) + [last.value];
      forall k | 0 <= k < |ws| ensures ws[k] == Some(Numbers(ws)[k]) {
        if k < |init| {
          assert Numbers(ws)[k] == Numbers(init)[k];
        }
      }
    }
  }

  /** The NaN-removal loop of `getViewportWidthInCssPixels`, with the loop
      bound read from the live length: it splices every NaN entry out in
      place and steps back one index after each splice, so no entry is
      skipped. The result holds exactly the numbers of `widths`, in order. */
  method RemoveNaNs(widths: seq<Option<int>>) returns (ws: seq<Option<int>>)
    ensures Numbers(ws) == Numbers(widths)
    ensures |ws| == |Numbers(widths)|
    ensures forall k :: 0 <= k < |ws| ==> ws[k] == Some(Numbers(widths)[k])
  {
    ws := widths;
    var i: int := 0;
    while i < |ws|
      invariant 0 <= i <= |ws|
      invariant forall k :: 0 <= k < i ==> ws[k].Some?
      invariant Numbers(ws) == Numbers(widths)
      decreases |ws| - i
    {
      if ws[i].None? {
        NumbersSkipNaN(ws, i);
        ws := ws[..i] + ws[i + 1..];
        i := i - 1;
      }
      i := i + 1;
    }
    NumbersOfNumbers(ws);
  }

  /** `getViewportWidthInCssPixels` with the corrected NaN-removal loop. */
  method ViewportWidthInCssPixels(widths: seq<Option<int>>, screenWidthFallback: Option<int>) returns (result: int)
    ensures result == Width(widths, screenWidthFallback)
  {
    var ws := RemoveNaNs(widths);
    var width: Option<int> := None;
    if |ws| > 0 {
      width := Some(Max(Numbers(ws)));
      // A numeric fallback caps the width at the screen's.
      if screenWidthFallback.Some? {
        width := Some(Min(screenWidthFallback.value, width.value));
      }
    }
    if width.Some? && width.value != 0 {
      result := width.value;
    } else if screenWidthFallback.Some? && screenWidthFallback.value != 0 {
      result := screenWidthFallback.value;
    } else {
      result := 0;
    }
  }

  /** The viewport is never reported wider than a numeric screen fallback. */
  lemma WidthAtMostScreen(widths: seq<Option<int>>, fallback: Option<int>)
    requires fallback.Some?
    ensures Width(widths, fallback) <= fallback.value
  {
  }

  /** A non-zero fallback guarantees a non-zero width. */
  lemma WidthNonZero(widths: seq<Option<int>>, fallback: Option<int>)
    requires fallback.Some? && fallback.value != 0
    ensures Width(widths, fallback) != 0
  {
  }

  /** The width is one of the measurements, the fallback, or 0. */
  lemma WidthOrigin(widths: seq<Option<int>>, fallback: Option<int>)
    ensures var w := Width(widths, fallback);
      w == 0 || Some(w) in widths || fallback == Some(w)
  {
    NumbersMembers(widths);
  }

  /** Without a fallback the width is the widest numeric measurement. */
  lemma WidthIsWidest(widths: seq<Option<int>>, fallback: Option<int>)
    requires fallback.None? && Numbers(widths) != []
    ensures Some(Width(widths, fallback)) in widths
    ensures forall x :: Some(x) in widths ==> x <= Width(widths, fallback)
  {
    NumbersMembers(widths);
  }

  /** The NaN-removal loop AS WRITTEN: the bound `l` is the length read before
      the loop, while entries are spliced out of the live array. Past the live
      end `widths[i]` is `undefined`, `isNaN(undefined)` is true and
      `splice(i, 1)` removes nothing; `i--` then `i++` leaves `i` in place.
      `fuel` bounds the iterations: None means the loop was still running. */
  function RemoveNaNsAsWritten(ws: seq<Option<int>>, i: nat, l: nat, fuel: nat): Option<seq<Option<int>>>
    decreases fuel
  {
    if i >= l then Some(ws)
    else if fuel == 0 then None
    else if i < |ws| && ws[i].Some? then RemoveNaNsAsWritten(ws, i + 1, l, fuel - 1)
    else RemoveNaNsAsWritten(if i < |ws| then ws[..i] + ws[i + 1..] else ws, i, l, fuel - 1)
  }

  lemma {:induction false} AsWrittenStuck(ws: seq<Option<int>>, i: nat, l: nat, fuel: nat)
    requires i <= |ws| <= l
    requires |ws| < l || None in ws[i..]
    ensures RemoveNaNsAsWritten(ws, i, l, fuel) == None
    decreases fuel
  {
    if fuel > 0 {
      if i < |ws| && ws[i].Some? {
        assert |ws| == l ==> None in ws[i + 1..] by {
          if |ws| == l {
            var k :| i <= k < |ws| && ws[k] == None;
            assert ws[i + 1..][k - i - 1] == ws[k];
          }
        }
        AsWrittenStuck(ws, i + 1, l, fuel - 1);
      } else if i < |ws| {
        AsWrittenStuck(ws[..i] + ws[i + 1..], i, l, fuel - 1);
      } else {
        AsWrittenStuck(ws, i, l, fuel - 1);
      }
    }
  }

  /** The loop as written never ends once `widths` holds a NaN entry, however
      many iterations it is given. */
  lemma AsWrittenHangsOnNaN(widths: seq<Option<int>>, fuel: nat)
    requires None in widths
    ensures RemoveNaNsAsWritten(widths, 0, |widths|, fuel) == None
  {
    assert widths[0..] == widths;
    AsWrittenStuck(widths, 0, |widths|, fuel);
  }

  lemma {:induction false} AsWrittenRunsThrough(ws: seq<Option<int>>, i: nat, fuel: nat)
    requires i <= |ws| && fuel >= |ws| - i
    requires forall k :: 0 <= k < |ws| ==> ws[k].Some?
    ensures RemoveNaNsAsWritten(ws, i, |ws|, fuel) == Some(ws)
    decreases |ws| - i
  {
    if i < |ws| {
      AsWrittenRunsThrough(ws, i + 1, fuel - 1);
    }
  }

  /** When every measurement is a number, the loop as written ends after
      `|widths|` iterations and keeps every entry, as the corrected one does. */
  lemma AsWrittenWithoutNaN(widths: seq<Option<int>>)
    requires None !in widths
    ensures RemoveNaNsAsWritten(widths, 0, |widths|, |widths|) == Some(widths)
  {
    AsWrittenRunsThrough(widths, 0, |widths|);
  }
}
