/** The scan/dispatch core of the deferred-loading engine (`NodeLoader`).
    A loader keeps a pending list of marked elements; a scan collects newly
    marked elements, calls the user callback on every pending element that is
    no longer below the fold, splices those out of the list, and detaches the
    window listeners once the list is empty. DOM elements are identified by
    `ElemId`s; the element query, the window height, the scroll offset and the
    element offsets are inputs of the scan. The user callback is opaque: the
    ghost log `dispatched` records every element it was called on. */
module LazyLoad {
  import opened Wrappers

  /** The identity of a DOM element. */
  type ElemId = int

  const DefaultClassName: string := "lazyload"
  const DefaultFoldDistance: int := 100

  /** `options.name || 'lazyload'`: a missing or empty name falls back to the default. */
  function ClassNameOf(name: Option<string>): (n: string)
    ensures n != []
    ensures name.Some? && name.value != [] ==> n == name.value
    ensures name.None? || name.value == [] ==> n == DefaultClassName
  {
    if name.Some? && name.value != [] then name.value else DefaultClassName
  }

  /** `options.foldDistance || 100`: a missing or zero distance falls back to 100 pixels. */
  function FoldDistanceOf(foldDistance: Option<int>): (d: int)
    ensures d != 0
    ensures foldDistance.Some? && foldDistance.value != 0 ==> d == foldDistance.value
    ensures foldDistance.None? || foldDistance.value == 0 ==> d == DefaultFoldDistance
  {
    if foldDistance.Some? && foldDistance.value != 0 then foldDistance.value else DefaultFoldDistance
  }

  /** The window measurements a scan reads: `$win.height()`, `$win.scrollTop()`
      and, per element, `$(img).offset().top`. */
  datatype Viewport = Viewport(height: int, scrollTop: int, offsets: map<ElemId, int>)

  /** `$(img).offset().top`; an element without a layout box (detached or
      not rendered) reports 0, as jQuery's `offset()` does. */
  function OffsetTop(v: Viewport, e: ElemId): (top: int)
    ensures e in v.offsets ==> top == v.offsets[e]
    ensures e !in v.offsets ==> top == 0
  {
    if e in v.offsets then v.offsets[e] else 0
  }

  /** The element's top edge lies at least `foldDistance` pixels below the
      bottom of the visible window. */
  predicate IsBelowTheFold(v: Viewport, e: ElemId, foldDistance: int) {
    v.height + v.scrollTop <= OffsetTop(v, e) - foldDistance
  }

  /** An element is loaded exactly when its top edge is less than
      `foldDistance` pixels below the bottom of the visible window. */
  lemma DueIffNearViewport(v: Viewport, e: ElemId, foldDistance: int)
    ensures !IsBelowTheFold(v, e, foldDistance) <==> OffsetTop(v, e) - (v.height + v.scrollTop) < foldDistance
  {
  }

  /** Scrolling down never moves an element back below the fold. */
  lemma ScrollingDownKeepsDue(v: Viewport, e: ElemId, foldDistance: int, scrollTop: int)
    requires !IsBelowTheFold(v, e, foldDistance)
    requires scrollTop >= v.scrollTop
    ensures !IsBelowTheFold(v.(scrollTop := scrollTop), e, foldDistance)
  {
  }

  /** A fold distance of 50, a window 800 pixels high and an element at 1000:
      the element is loaded exactly when the scroll offset exceeds 150. */
  lemma FoldScenario(v: Viewport, e: ElemId)
    requires v.height == 800 && OffsetTop(v, e) == 1000
    ensures !IsBelowTheFold(v, e, 50) <==> v.scrollTop > 150
  {
  }

  function Elems(s: seq<ElemId>): set<ElemId> {
    set e | e in s
  }

  lemma ElemsAppend(a: seq<ElemId>, b: seq<ElemId>)
    ensures Elems(a + b) == Elems(a) + Elems(b)
  {
    assert forall e :: e in a + b <==> e in a || e in b;
  }

  ghost predicate Distinct(s: seq<ElemId>) {
    forall i, j :: 0 <= i < j < |s| ==> s[i] != s[j]
  }

  /** No element occurs more than once in `a` and `b` together. */
  ghost predicate Once(a: seq<ElemId>, b: seq<ElemId>) {
    forall e :: multiset(a)[e] + multiset(b)[e] <= 1
  }

  /** The elements a collection pass appends, in query order: each queried
      element not flagged yet, flagged by its first occurrence. */
  function Collect(query: seq<ElemId>, flagged: set<ElemId>): seq<ElemId>
    decreases |query|
  {
    if query == [] then []
    else
      var prev := Collect(query[..|query| - 1], flagged);
      var e := query[|query| - 1];
      if e in flagged || e in prev then prev else prev + [e]
  }

  lemma CollectSnoc(q: seq<ElemId>, e: ElemId, flagged: set<ElemId>)
    ensures Collect(q + [e], flagged) ==
      if e in flagged || e in Collect(q, flagged) then Collect(q, flagged) else Collect(q, flagged) + [e]
  {
    assert (q + [e])[..|q + [e]| - 1] == q;
  }

  /** Collection appends each queried element without the flag, and each only once. */
  lemma {:induction false} CollectFresh(query: seq<ElemId>, flagged: set<ElemId>)
    ensures forall e :: e in Collect(query, flagged) <==> e in query && e !in flagged
    ensures Once(Collect(query, flagged), [])
    decreases |query|
  {
    if query != [] {
      var init := query[..|query| - 1];
      var e := query[|query| - 1];
      assert query == init + [e];
      CollectFresh(init, flagged);
      CollectSnoc(init, e, flagged);
    }
  }

  /** An independent reference: the queried elements that are not flagged, in query order. */
  function Unflagged(query: seq<ElemId>, flagged: set<ElemId>): seq<ElemId>
    decreases |query|
  {
    if query == [] then []
    else
      var init := query[..|query| - 1];
      var e := query[|query| - 1];
      if e in flagged then Unflagged(init, flagged) else Unflagged(init, flagged) + [e]
  }

  /** On a query without repetitions (a DOM query returns each element once,
      in document order) collection appends exactly the unflagged elements,
      in query order. */
  lemma {:induction false} CollectInQueryOrder(query: seq<ElemId>, flagged: set<ElemId>)
    requires Distinct(query)
    ensures Collect(query, flagged) == Unflagged(query, flagged)
    decreases |query|
  {
    if query != [] {
      var init := query[..|query| - 1];
      var e := query[|query| - 1];
      assert forall k :: 0 <= k < |init| ==> init[k] == query[k] != e;
      assert Distinct(init);
      CollectInQueryOrder(init, flagged);
      CollectFresh(init, flagged);
    }
  }

  /** The pending elements a dispatch pass loads (not below the fold), in list order. */
  function Due(s: seq<ElemId>, v: Viewport, foldDistance: int): seq<ElemId>
    decreases |s|
  {
    if s == [] then []
    else
      var init := s[..|s| - 1];
      var e := s[|s| - 1];
      if IsBelowTheFold(v, e, foldDistance) then Due(init, v, foldDistance)
      else Due(init, v, foldDistance) + [e]
  }

  /** The pending elements a dispatch pass keeps (below the fold), in list order. */
  function Deferred(s: seq<ElemId>, v: Viewport, foldDistance: int): seq<ElemId>
    decreases |s|
  {
    if s == [] then []
    else
      var init := s[..|s| - 1];
      var e := s[|s| - 1];
      if IsBelowTheFold(v, e, foldDistance) then Deferred(init, v, foldDistance) + [e]
      else Deferred(init, v, foldDistance)
  }

  lemma DueSnoc(s: seq<ElemId>, e: ElemId, v: Viewport, foldDistance: int)
    ensures Due(s + [e], v, foldDistance) ==
      if IsBelowTheFold(v, e, foldDistance) then Due(s, v, foldDistance) else Due(s, v, foldDistance) + [e]
    ensures Deferred(s + [e], v, foldDistance) ==
      if IsBelowTheFold(v, e, foldDistance) then Deferred(s, v, foldDistance) + [e] else Deferred(s, v, foldDistance)
  {
    assert (s + [e])[..|s + [e]| - 1] == s;
  }

  /** A dispatch pass loads exactly the pending elements not below the fold
      and keeps exactly those below it. */
  lemma {:induction false} DispatchMembers(s: seq<ElemId>, v: Viewport, foldDistance: int)
    ensures forall e :: e in Due(s, v, foldDistance) <==> e in s && !IsBelowTheFold(v, e, foldDistance)
    ensures forall e :: e in Deferred(s, v, foldDistance) <==> e in s && IsBelowTheFold(v, e, foldDistance)
    decreases |s|
  {
    if s != [] {
      var init := s[..|s| - 1];
      assert s == init + [s[|s| - 1]];
      DispatchMembers(init, v, foldDistance);
    }
  }

  /** A dispatch pass neither loses nor duplicates a pending element: what it
      loads and what it keeps together are the pending list. */
  lemma {:induction false} DispatchPartitions(s: seq<ElemId>, v: Viewport, foldDistance: int)
    ensures multiset(Due(s, v, foldDistance)) + multiset(Deferred(s, v, foldDistance)) == multiset(s)
    decreases |s|
  {
    if s != [] {
      var init := s[..|s| - 1];
      assert s == init + [s[|s| - 1]];
      DispatchPartitions(init, v, foldDistance);
    }
  }

  /** The index bookkeeping of one dispatch step: the element at index
      `|kept|` is the next pending one; splicing it out leaves the rest. */
  lemma SpliceAt(kept: seq<ElemId>, pending: seq<ElemId>, k: nat)
    requires k < |pending|
    ensures (kept + pending[k..])[|kept|] == pending[k]
    ensures (kept + pending[k..])[..|kept|] + (kept + pending[k..])[|kept| + 1..] == kept + pending[k + 1..]
    ensures kept + pending[k..] == (kept + [pending[k]]) + pending[k + 1..]
  {
    var images := kept + pending[k..];
    assert images[..|kept|] == kept;
    assert images[|kept| + 1..] == pending[k + 1..];
  }

  /** One step of the dispatch pass: the next pending element joins what
      is loaded or what is kept. */
  lemma DispatchStep(pending: seq<ElemId>, k: nat, kept: seq<ElemId>, loaded: seq<ElemId>, v: Viewport, foldDistance: int)
    requires k < |pending|
    requires kept == Deferred(pending[..k], v, foldDistance) && loaded == Due(pending[..k], v, foldDistance)
    ensures IsBelowTheFold(v, pending[k], foldDistance) ==>
      kept + [pending[k]] == Deferred(pending[..k + 1], v, foldDistance) && loaded == Due(pending[..k + 1], v, foldDistance)
    ensures !IsBelowTheFold(v, pending[k], foldDistance) ==>
      kept == Deferred(pending[..k + 1], v, foldDistance) && loaded + [pending[k]] == Due(pending[..k + 1], v, foldDistance)
  {
    assert pending[..k + 1] == pending[..k] + [pending[k]];
    DueSnoc(pending[..k], pending[k], v, foldDistance);
  }

  /** Whether a scan runs the collection pass: `!images.length || update === true`. */
  predicate Collecting(images: seq<ElemId>, update: bool) {
    images == [] || update
  }

  /** The pending list once the collection pass (if it runs) is done. */
  function Pending(images: seq<ElemId>, flagged: set<ElemId>, update: bool, query: seq<ElemId>): seq<ElemId> {
    if Collecting(images, update) then images + Collect(query, flagged) else images
  }

  /** The loader's bookkeeping: every flagged element is pending or
      dispatched, none is both or twice, and the counter counts them. */
  ghost predicate Books(images: seq<ElemId>, dispatched: seq<ElemId>, flagged: set<ElemId>, counter: int) {
    && Once(images, dispatched)
    && flagged == Elems(images) + Elems(dispatched)
    && counter == |images| + |dispatched|
  }

  /** The collection pass keeps the loader's bookkeeping: the newly flagged
      elements join the pending list, each once and none already flagged. */
  lemma CollectKeeps(images: seq<ElemId>, dispatched: seq<ElemId>, flagged: set<ElemId>, counter: int, query: seq<ElemId>)
    requires Books(images, dispatched, flagged, counter)
    ensures Books(images + Collect(query, flagged), dispatched, flagged + Elems(query),
      counter + |images + Collect(query, flagged)| - |images|)
  {
    var c := Collect(query, flagged);
    CollectFresh(query, flagged);
    ElemsAppend(images, c);
    assert Elems(c) == Elems(query) - flagged by {
      forall e ensures e in Elems(c) <==> e in Elems(query) - flagged {
        assert e in Elems(c) <==> e in c;
        assert e in Elems(query) <==> e in query;
      }
    }
    forall e ensures multiset(images + c)[e] + multiset(dispatched)[e] <= 1 {
      assert multiset(images + c)[e] == multiset(images)[e] + multiset(c)[e];
      assert multiset(c)[e] + multiset([])[e] <= 1;
      if e in c {
        assert e !in images && e !in dispatched;
      }
    }
  }

  /** The dispatch pass keeps the bookkeeping: what it loads moves from the
      pending list to the dispatched one. */
  lemma DispatchKeeps(pending: seq<ElemId>, dispatched: seq<ElemId>, flagged: set<ElemId>, counter: int, v: Viewport, foldDistance: int)
    requires Books(pending, dispatched, flagged, counter)
    ensures Books(Deferred(pending, v, foldDistance), dispatched + Due(pending, v, foldDistance), flagged, counter)
  {
    var due, kept := Due(pending, v, foldDistance), Deferred(pending, v, foldDistance);
    DispatchPartitions(pending, v, foldDistance);
    DispatchMembers(pending, v, foldDistance);
    assert multiset(kept) + multiset(dispatched + due) == multiset(pending) + multiset(dispatched);
    assert |multiset(kept)| + |multiset(due)| == |multiset(pending)|;
    ElemsAppend(dispatched, due);
    DispatchElems(pending, v, foldDistance);
  }

  lemma DispatchElems(pending: seq<ElemId>, v: Viewport, foldDistance: int)
    ensures Elems(Deferred(pending, v, foldDistance)) + Elems(Due(pending, v, foldDistance)) == Elems(pending)
  {
    DispatchMembers(pending, v, foldDistance);
    var kept, due := Deferred(pending, v, foldDistance), Due(pending, v, foldDistance);
    forall e ensures e in Elems(kept) + Elems(due) <==> e in Elems(pending) {
      assert e in Elems(kept) <==> e in kept;
      assert e in Elems(due) <==> e in due;
      assert e in Elems(pending) <==> e in pending;
    }
  }

  lemma MultisetPair(s: seq<ElemId>, i: int, j: int)
    requires 0 <= i < j < |s|
    ensures s[i] == s[j] ==> multiset(s)[s[i]] >= 2
  {
    assert s == s[..j] + [s[j]] + s[j + 1..];
    assert s[i] in s[..j];
  }

  /** A list in which nothing occurs twice (as a multiset) has no repeated entry. */
  lemma DistinctOfOnce(s: seq<ElemId>, t: seq<ElemId>)
    requires Once(s, t)
    ensures Distinct(s)
  {
    forall i, j | 0 <= i < j < |s| ensures s[i] != s[j] {
      MultisetPair(s, i, j);
      assert multiset(s)[s[i]] + multiset(t)[s[i]] <= 1;
    }
  }

  /** One loader instance: `new NodeLoader(options)` with its private state. */
  class NodeLoader {
    const className: string
    const foldDistance: int
    /** Whether the window reports `orientation` and fires `orientationchange`. */
    const orientationSupported: bool

    /** The pending list `images`, in collection order. */
    var images: seq<ElemId>
    /** The elements carrying the one-shot `riloaded` flag. */
    var riloaded: set<ElemId>
    var imagesPendingLoad: nat
    /** Whether the scroll, resize (and orientation) listeners are attached. */
    var listenersAttached: bool
    /** The orientation recorded last; None while it is `undefined`. */
    var lastOrientation: Option<int>
    /** Every element the callback was called on, in call order. */
    ghost var dispatched: seq<ElemId>

    /** Every flagged element is pending or dispatched, and none is both or
        twice; the counter counts the flagged elements; the listeners are
        attached exactly while elements are pending. */
    ghost predicate Valid()
      reads this
    {
      && Books(images, dispatched, riloaded, imagesPendingLoad)
      && (listenersAttached <==> images != [])
    }

    constructor (name: Option<string>, foldDistanceOption: Option<int>, orientationSupported: bool)
      ensures Valid()
      ensures className == ClassNameOf(name) && foldDistance == FoldDistanceOf(foldDistanceOption)
      ensures this.orientationSupported == orientationSupported
      ensures images == [] && riloaded == {} && imagesPendingLoad == 0
      ensures !listenersAttached && lastOrientation == None && dispatched == []
    {
      className := ClassNameOf(name);
      foldDistance := FoldDistanceOf(foldDistanceOption);
      this.orientationSupported := orientationSupported;
      images := [];
      riloaded := {};
      imagesPendingLoad := 0;
      listenersAttached := false;
      lastOrientation := None;
      dispatched := [];
    }

    /** Attaching the listeners records the current orientation, when the window reports one. */
    method AddBelowfoldListeners(orientation: int)
      modifies this`listenersAttached, this`lastOrientation
      ensures listenersAttached
      ensures lastOrientation == if orientationSupported then Some(orientation) else old(lastOrientation)
    {
      listenersAttached := true;
      if orientationSupported {
        lastOrientation := Some(orientation);
      }
    }

    method RemoveBelowfoldListeners()
      modifies this`listenersAttached
      ensures !listenersAttached
    {
      listenersAttached := false;
    }

    /** Runs the callback on `images[idx]` and splices it out of the list. */
    method LoadImage(idx: nat)
      requires idx < |images|
      modifies this`images, this`dispatched
      ensures images == old(images[..idx] + images[idx + 1..])
      ensures dispatched == old(dispatched) + [old(images[idx])]
    {
      dispatched := dispatched + [images[idx]];
      images := images[..idx] + images[idx + 1..];
    }

    /** The orientation-change handler (run by its debounce wrapper): it asks
        for a scan only when the orientation differs from the one recorded,
        and records the current one. */
    method OrientationChange(orientation: int) returns (rescan: bool)
      requires Valid()
      modifies this`lastOrientation
      ensures Valid()
      ensures rescan <==> old(lastOrientation) != Some(orientation)
      ensures lastOrientation == Some(orientation)
    {
      rescan := false;
      if Some(orientation) != lastOrientation {
        lastOrientation := Some(orientation);
        rescan := true;
      }
    }

    /** The collection pass: every queried element without the `riloaded`
        flag is flagged, appended to `images` and counted. */
    method CollectImages(query: seq<ElemId>)
      modifies this`images, this`riloaded, this`imagesPendingLoad
      ensures images == old(images) + Collect(query, old(riloaded))
      ensures riloaded == old(riloaded) + Elems(query)
      ensures imagesPendingLoad == old(imagesPendingLoad) + |images| - |old(images)|
    {
      var k := 0;
      while k < |query|
        invariant 0 <= k <= |query|
        invariant images == old(images) + Collect(query[..k], old(riloaded))
        invariant riloaded == old(riloaded) + Elems(query[..k])
        invariant imagesPendingLoad == old(imagesPendingLoad) + |images| - |old(images)|
      {
        var elm := query[k];
        assert query[..k + 1] == query[..k] + [elm];
        assert Elems(query[..k + 1]) == Elems(query[..k]) + {elm};
        CollectSnoc(query[..k], elm, old(riloaded));
        CollectFresh(query[..k], old(riloaded));
        if elm !in riloaded {
          riloaded := riloaded + {elm};
          images := images + [elm];
          imagesPendingLoad := imagesPendingLoad + 1;
        }
        k := k + 1;
      }
      assert query[..|query|] == query;
    }

    /** The dispatch pass: an index loop that loads and splices out every
        pending element not below the fold, stepping back after each splice. */
    method DispatchImages(v: Viewport)
      modifies this`images, this`dispatched
      ensures images == Deferred(old(images), v, foldDistance)
      ensures dispatched == old(dispatched) + Due(old(images), v, foldDistance)
    {
      ghost var pending := images;
      if |images| > 0 {
        var i: int := 0;
        ghost var k := 0;
        ghost var kept: seq<ElemId> := [];
        ghost var loaded: seq<ElemId> := [];
        while i < |images|
          invariant 0 <= k <= |pending|
          invariant kept == Deferred(pending[..k], v, foldDistance)
          invariant loaded == Due(pending[..k], v, foldDistance)
          invariant images == kept + pending[k..]
          invariant i == |kept|
          invariant dispatched == old(dispatched) + loaded
          decreases |images| - i
        {
          SpliceAt(kept, pending, k);
          DispatchStep(pending, k, kept, loaded, v, foldDistance);
          var current := images[i];
          if !IsBelowTheFold(v, current, foldDistance) {
            LoadImage(i);
            loaded := loaded + [current];
            i := i - 1;
          } else {
            kept := kept + [current];
          }
          i := i + 1;
          k := k + 1;
        }
        assert pending[..|pending|] == pending;
      }
    }

    /** One scan (the deferred body of `loadImages(update)`), run atomically.
        `query` is the result of the marker query in document order, `v` the
        window measurements and `orientation` the window's orientation. */
    method LoadImages(update: bool, query: seq<ElemId>, v: Viewport, orientation: int)
      requires Valid()
      modifies this
      ensures Valid()
      ensures images == Deferred(Pending(old(images), old(riloaded), update, query), v, foldDistance)
      ensures dispatched == old(dispatched) + Due(Pending(old(images), old(riloaded), update, query), v, foldDistance)
      ensures riloaded == if Collecting(old(images), update) then old(riloaded) + Elems(query) else old(riloaded)
      ensures imagesPendingLoad == old(imagesPendingLoad) + |Pending(old(images), old(riloaded), update, query)| - |old(images)|
      ensures listenersAttached <==> images != []
      ensures lastOrientation ==
        if Collecting(old(images), update) && orientationSupported then Some(orientation) else old(lastOrientation)
    {
      if images == [] || update {
        AddBelowfoldListeners(orientation);
        CollectKeeps(images, dispatched, riloaded, imagesPendingLoad, query);
        CollectImages(query);
      }
      DispatchKeeps(images, dispatched, riloaded, imagesPendingLoad, v, foldDistance);
      DispatchImages(v);
      if images == [] {
        RemoveBelowfoldListeners();
      }
    }

    /** The public `lazyload()`: a scan that always runs the collection pass. */
    method Lazyload(query: seq<ElemId>, v: Viewport, orientation: int)
      requires Valid()
      modifies this
      ensures Valid()
      ensures images == Deferred(old(images) + Collect(query, old(riloaded)), v, foldDistance)
      ensures dispatched == old(dispatched) + Due(old(images) + Collect(query, old(riloaded)), v, foldDistance)
      ensures riloaded == old(riloaded) + Elems(query)
      ensures imagesPendingLoad == old(imagesPendingLoad) + |Collect(query, old(riloaded))|
      ensures listenersAttached <==> images != []
      ensures lastOrientation == if orientationSupported then Some(orientation) else old(lastOrientation)
    {
      LoadImages(true, query, v, orientation);
    }
  }

  /** At most once: on a valid loader the callback was called on no element
      twice, only on flagged elements, and never on one still pending. */
  lemma AtMostOnce(l: NodeLoader)
    requires l.Valid()
    ensures Distinct(l.dispatched)
    ensures forall e :: e in l.dispatched ==> e in l.riloaded && e !in l.images
    ensures Distinct(l.images)
  {
    DistinctOfOnce(l.dispatched, l.images);
    DistinctOfOnce(l.images, l.dispatched);
    forall e | e in l.dispatched ensures e !in l.images {
      assert multiset(l.dispatched)[e] >= 1;
      assert multiset(l.images)[e] + multiset(l.dispatched)[e] <= 1;
    }
  }
}
