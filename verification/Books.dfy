/**
  Which references a session holds, and the entries in its books: every
  reference that is out belongs to one field, to one layer, or to the
  application.
 */
module Books {
  import opened Basics
  import opened CoreLedger

  /** What the session keeps per layer; without a context the other pointers mean nothing. */
  datatype Slot = Slot(context: Option<Ref>, region: Option<Ref>, surface: Option<Ref>, palette: Option<Ref>) {
    predicate Valid() {
      context.Some? ==> region.Some? && surface.Some?
    }
  }

  const EMPTY_SLOT := Slot(None, None, None, None)

  predicate IsInterface(r: Option<Ref>) {
    r.Some? ==> r.value.kind == INTERFACE
  }

  // ---- Ownership ----

  function One(r: Option<Ref>): multiset<Ref> {
    if r.Some? then multiset{r.value} else multiset{}
  }

  function SlotRefs(s: Slot): multiset<Ref> {
    if s.context.Some? then One(s.context) + One(s.region) + One(s.surface) + One(s.palette) else multiset{}
  }

  function LayerRefs(layers: seq<Slot>): multiset<Ref> {
    if layers == [] then multiset{} else LayerRefs(layers[..|layers| - 1]) + SlotRefs(layers[|layers| - 1])
  }

  /** The references a session with these fields holds. */
  function Refs(context: Option<Ref>, window: Option<Ref>, primary: Option<Ref>, layers: seq<Slot>): multiset<Ref> {
    One(context) + One(window) + One(primary) + LayerRefs(layers)
  }

  /** The references that are out are those the session holds, those handed out, and one that may be in flight. */
  ghost predicate Balanced(live: multiset<Ref>, context: Option<Ref>, window: Option<Ref>, primary: Option<Ref>,
                           layers: seq<Slot>, handedOut: multiset<Ref>, inFlight: Option<Ref>) {
    live == Refs(context, window, primary, layers) + handedOut + One(inFlight)
  }

  // Sums of multisets.

  lemma Swap(a: multiset<Ref>, b: multiset<Ref>, c: multiset<Ref>)
    ensures a + b + c == a + c + b && a + b - b == a
  {
  }

  lemma Associate(a: multiset<Ref>, b: multiset<Ref>, c: multiset<Ref>)
    ensures a + (b + c) == a + b + c
  {
  }

  lemma Returned(a: multiset<Ref>, x: Ref)
    ensures x in a + multiset{x} && a + multiset{x} - multiset{x} == a
  {
  }

  lemma UnwindTwo(a: multiset<Ref>, x: Ref, y: Ref)
    ensures
      var both := a + multiset{x} + multiset{y};
      x in both && y in both && both - multiset{y} == a + multiset{x} && a + multiset{x} - multiset{x} == a
  {
  }

  /** The same with a third reference taken meanwhile, and kept. */
  lemma UnwindTwoUnder(a: multiset<Ref>, x: Ref, y: Ref, z: Ref)
    ensures
      var all, kept := a + multiset{x} + multiset{y} + multiset{z}, a + multiset{z};
      && y in all && all - multiset{y} == kept + multiset{x}
      && x in kept + multiset{x} && kept + multiset{x} - multiset{x} == kept
  {
  }

  lemma Nothing(a: multiset<Ref>)
    ensures a + multiset{} == a && multiset{} + a == a
  {
  }

  lemma LayerRefsLast(layers: seq<Slot>)
    requires layers != []
    ensures LayerRefs(layers) == LayerRefs(layers[..|layers| - 1]) + SlotRefs(layers[|layers| - 1])
  {
  }

  lemma {:induction false} LayerRefsUpdate(layers: seq<Slot>, i: nat, s: Slot)
    requires i < |layers| && layers[i].context.None?
    ensures LayerRefs(layers[i := s]) == LayerRefs(layers) + SlotRefs(s)
  {
    NoContextNoRefs(layers[i]);
    hide SlotRefs, LayerRefs;
    var n := |layers| - 1;
    LayerRefsLast(layers);
    LayerRefsLast(layers[i := s]);
    if i < n {
      LayerRefsUpdate(layers[..n], i, s);
      assert layers[i := s][..n] == layers[..n][i := s];
      Swap(LayerRefs(layers[..n]), SlotRefs(s), SlotRefs(layers[n]));
    } else {
      assert layers[i := s][..n] == layers[..n];
      Nothing(LayerRefs(layers[..n]));
    }
  }

  lemma {:induction false} LayerRefsFront(layers: seq<Slot>)
    requires layers != []
    ensures LayerRefs(layers) == SlotRefs(layers[0]) + LayerRefs(layers[1..])
  {
    hide SlotRefs;
    var n := |layers| - 1;
    var first, last := SlotRefs(layers[0]), SlotRefs(layers[n]);
    if n > 0 {
      LayerRefsFront(layers[..n]);
      assert layers[1..][..n - 1] == layers[..n][1..];
      Associate(first, LayerRefs(layers[..n][1..]), last);
    } else {
      assert layers[..0] == [] && layers[1..] == [];
      Nothing(first);
    }
  }

  lemma {:induction false} NoContextsNoRefs(layers: seq<Slot>)
    requires forall i :: 0 <= i < |layers| ==> layers[i].context.None?
    ensures LayerRefs(layers) == multiset{}
  {
    if layers != [] {
      NoContextsNoRefs(layers[..|layers| - 1]);
    }
  }

  lemma {:induction false} LayerHolds(layers: seq<Slot>, i: nat, others: multiset<Ref>)
    requires i < |layers| && layers[i].context.Some?
    ensures layers[i].context.value in others + LayerRefs(layers)
  {
    if i < |layers| - 1 {
      LayerHolds(layers[..|layers| - 1], i, others);
    }
  }

  lemma NoContextNoRefs(s: Slot)
    ensures s.context.None? ==> SlotRefs(s) == multiset{}
  {
  }

  /** Releasing the references of a slot one after the other. */
  lemma SlotReleased(rest: multiset<Ref>, s: Slot)
    requires s.Valid() && s.context.Some?
    ensures
      var c, r, u := multiset{s.context.value}, multiset{s.region.value}, multiset{s.surface.value};
      && (s.palette.Some? ==>
            && s.palette.value in rest + SlotRefs(s)
            && rest + SlotRefs(s) - multiset{s.palette.value} == rest + c + r + u)
      && (s.palette.None? ==> rest + SlotRefs(s) == rest + c + r + u)
      && rest + c + r + u - u == rest + c + r && rest + c + r - r == rest + c && rest + c - c == rest
  {
  }

  lemma SlotTaken(live: multiset<Ref>, s: Slot)
    requires s.context.Some?
    ensures live + multiset{s.context.value} + One(s.region) + One(s.surface) + One(s.palette) == live + SlotRefs(s)
  {
  }

  lemma Opened(live: multiset<Ref>, c: Option<Ref>, layers: seq<Slot>, h: multiset<Ref>)
    requires live == One(c) + LayerRefs(layers) && h == multiset{}
    ensures Balanced(live, c, None, None, layers, h, None)
  {
  }

  lemma OnlyLayers(live: multiset<Ref>, layers: seq<Slot>, h: multiset<Ref>)
    requires Balanced(live, None, None, None, layers, h, None)
    ensures live == h + LayerRefs(layers)
  {
  }

  // Entries in the books.

  lemma WindowOut(live: multiset<Ref>, c: Option<Ref>, w: Ref, p: Option<Ref>, l: seq<Slot>, h: multiset<Ref>,
                  f: Option<Ref>)
    requires Balanced(live, c, Some(w), p, l, h, f)
    ensures w in live && Balanced(live - multiset{w}, c, None, p, l, h, f)
  {
  }

  lemma WindowIn(live: multiset<Ref>, c: Option<Ref>, w: Ref, p: Option<Ref>, l: seq<Slot>, h: multiset<Ref>)
    requires Balanced(live, c, None, p, l, h, Some(w))
    ensures Balanced(live, c, Some(w), p, l, h, None)
  {
  }

  lemma PrimaryOut(live: multiset<Ref>, c: Option<Ref>, w: Option<Ref>, p: Ref, l: seq<Slot>, h: multiset<Ref>)
    requires Balanced(live, c, w, Some(p), l, h, None)
    ensures p in live && Balanced(live - multiset{p}, c, w, None, l, h, None)
  {
  }

  lemma PrimaryIn(live: multiset<Ref>, c: Option<Ref>, w: Option<Ref>, p: Ref, l: seq<Slot>, h: multiset<Ref>)
    requires Balanced(live, c, w, None, l, h, Some(p))
    ensures Balanced(live, c, w, Some(p), l, h, None)
  {
  }

  lemma ContextOut(live: multiset<Ref>, c: Ref, w: Option<Ref>, p: Option<Ref>, l: seq<Slot>, h: multiset<Ref>)
    requires Balanced(live, Some(c), w, p, l, h, None)
    ensures c in live && Balanced(live - multiset{c}, None, w, p, l, h, None)
  {
  }

  lemma FlightIn(live: multiset<Ref>, c: Option<Ref>, w: Option<Ref>, p: Option<Ref>, l: seq<Slot>, h: multiset<Ref>,
                 r: Ref)
    requires Balanced(live, c, w, p, l, h, None)
    ensures Balanced(live + multiset{r}, c, w, p, l, h, Some(r)) && live + multiset{r} - multiset{r} == live
  {
  }

  lemma Booked(live: multiset<Ref>, c: Option<Ref>, w: Option<Ref>, p: Option<Ref>, l: seq<Slot>, h: multiset<Ref>,
               f: Option<Ref>)
    requires Balanced(live, c, w, p, l, h, f)
    ensures Balanced(live, c, w, p, l, h + One(f), None)
  {
  }

  lemma FlightOf(live: multiset<Ref>, c: Option<Ref>, w: Option<Ref>, p: Option<Ref>, l: seq<Slot>, h: multiset<Ref>,
                 f: Option<Ref>)
    requires Balanced(live, c, w, p, l, h, None)
    ensures Balanced(live + One(f), c, w, p, l, h, f)
  {
  }

  lemma HandedBack(live: multiset<Ref>, c: Option<Ref>, w: Option<Ref>, p: Option<Ref>, l: seq<Slot>,
                   h: multiset<Ref>, r: Ref)
    requires Balanced(live, c, w, p, l, h, None)
    ensures r in h ==> r in live && Balanced(live - multiset{r}, c, w, p, l, h - multiset{r}, None)
  {
  }

  lemma AllOut(live: multiset<Ref>, c: Option<Ref>, w: Option<Ref>, p: Option<Ref>, l: seq<Slot>, h: multiset<Ref>)
    requires Balanced(live, c, w, p, l, h, None)
    ensures c.Some? ==> c.value in live
    ensures w.Some? ==> w.value in live
    ensures p.Some? ==> p.value in live
  {
  }
}
