/**
  The core as the IDirectFB interface sees it: it hands out references, takes
  them back and carries out requests on them, and any call may fail.  Every call
  is recorded, so that the use of references can be judged on whole runs.
 */
module CoreLedger {
  import opened Basics

  datatype Kind = CONTEXT | WINDOW | REGION | SURFACE | PALETTE | PROVIDER | INTERFACE

  /** One reference taken once; its number is the place in the log where it was handed out. */
  datatype Ref = Ref(kind: Kind, id: nat)

  datatype BufferMode = FRONTONLY | BACKVIDEO | BACKSYSTEM | TRIPLE

  datatype ConfigFlag = WIDTH | HEIGHT | PIXELFORMAT | BUFFERMODE | OTHERS

  datatype Cap =
    | PRIMARY | SYSTEMONLY | VIDEOONLY | DOUBLE_BUFFER | TRIPLE_BUFFER
    | PREMULTIPLIED | GL | STEREO | SHARED | OTHER_CAP(bit: nat)

  datatype Layout = Layout(width: int, height: int, format: int)

  /** What a new surface, window or interface is to be like; an interface has no layout of its own. */
  datatype Spec = Spec(layout: Option<Layout>, caps: set<Cap>)

  const NO_SPEC := Spec(None, {})

  datatype Request =
    | Activate
    | GetConfiguration
    | SetBufferMode(mode: BufferMode, spec: Spec)  // a complete layer configuration with this buffer mode
    | SetSize(width: int, height: int, format: int)
    | TestConfiguration(flags: set<ConfigFlag>, mode: BufferMode)
    | SetConfiguration(flags: set<ConfigFlag>, mode: BufferMode)
    | Attach | Detach
    | SetEntries                                   // of a palette
    | ChangeOptions | AllowFocus                   // of a window
    | Resize(width: int, height: int)
    | BecomeBackground                             // as the image; a desktop's primary sets the mode with it
    | Show                                         // flip the region, or repaint its stack
    | SetPalette | SetColorKey
    | SetBackgroundColor | SetBackgroundColorIndex | SetBackgroundMode
    | Render                                       // of a provider

  datatype Call =
    | Acquired(ref: Ref, via: Option<Ref>, spec: Spec := NO_SPEC)
    | Refused(kind: Kind, via: Option<Ref>, spec: Spec := NO_SPEC)
    | Used(ref: Ref, what: Request, ok: bool)
    | Told(ref: Ref, what: Request) // a request that cannot fail, or whose outcome nobody looks at
    | Released(ref: Ref)
    | Cursor(enable: bool)
    | Dropped(listener: Ref) // the reactor removes a listener that asked for it
    | Consulted(ok: bool)    // a call that involves no reference

  predicate Names(c: Call, r: Ref) {
    match c
    case Acquired(s, via, _) => r == s || via == Some(r)
    case Refused(_, via, _) => via == Some(r)
    case Used(s, _, _) => r == s
    case Told(s, _) => r == s
    case Released(s) => r == s
    case Cursor(_) | Dropped(_) | Consulted(_) => false
  }

  predicate Held(live: multiset<Ref>, via: Option<Ref>) {
    via.Some? ==> via.value in live
  }

  function Step(live: multiset<Ref>, n: nat, c: Call): Option<multiset<Ref>> {
    match c
    case Acquired(r, via, _) => if Held(live, via) && r.id == n then Some(live + multiset{r}) else None
    case Refused(_, via, _) => if Held(live, via) then Some(live) else None
    case Used(r, _, _) => if r in live then Some(live) else None
    case Told(r, _) => if r in live then Some(live) else None
    case Released(r) => if r in live then Some(live - multiset{r}) else None
    case Cursor(_) | Dropped(_) | Consulted(_) => Some(live)
  }

  /** The references that are out after a log, or None if one was used or released while it was not out. */
  function Replay(log: seq<Call>): Option<multiset<Ref>> {
    if log == [] then Some(multiset{})
    else
      match Replay(log[..|log| - 1])
      case None => None
      case Some(live) => Step(live, |log| - 1, log[|log| - 1])
  }

  lemma ReplaySnoc(log: seq<Call>, c: Call, answers: nat -> bool)
    ensures Replay(log + [c]) == if Replay(log).None? then None else Step(Replay(log).value, |log|, c)
    ensures Listener(log + [c]) == Hear(Listener(log), c)
    ensures Fatals(log + [c]) == Fatals(log) + if Fatal(c) then 1 else 0
    ensures Honest(log + [c], answers) <==> Honest(log, answers) && Agrees(c, answers(|log|))
  {
    assert (log + [c])[..|log|] == log;
  }

  /** The reference whose events the session listens to. */
  function Hear(listener: Option<Ref>, c: Call): Option<Ref> {
    match c
    case Told(r, Attach) => Some(r)
    case Told(r, Detach) => if listener == Some(r) then None else listener
    case Dropped(r) => if listener == Some(r) then None else listener
    case _ => listener
  }

  function Listener(log: seq<Call>): Option<Ref> {
    if log == [] then None else Hear(Listener(log[..|log| - 1]), log[|log| - 1])
  }

  // ---- What the core answered ----

  /** The outcome in the log is the core's answer. */
  predicate Agrees(c: Call, answer: bool) {
    match c
    case Acquired(_, _, _) => answer
    case Refused(_, _, _) => !answer
    case Used(_, _, ok) => ok == answer
    case Consulted(ok) => ok == answer
    case Told(_, _) | Released(_) | Cursor(_) | Dropped(_) => true
  }

  ghost predicate Honest(log: seq<Call>, answers: nat -> bool) {
    forall k :: 0 <= k < |log| ==> Agrees(log[k], answers(k))
  }

  predicate Indispensable(kind: Kind, via: Option<Ref>) {
    kind == CONTEXT || kind == REGION || (kind == SURFACE && via.Some?)
  }

  /**
    A refusal that the start of a session does not survive: of a context, a
    region, the surface of a region, or a layer's configuration.
   */
  predicate Fatal(c: Call) {
    match c
    case Refused(kind, via, _) => Indispensable(kind, via)
    case Used(_, SetConfiguration(_, _), ok) => !ok
    case _ => false
  }

  function Fatals(log: seq<Call>): nat {
    if log == [] then 0 else Fatals(log[..|log| - 1]) + if Fatal(log[|log| - 1]) then 1 else 0
  }

  /** Where the count is not zero, the core refused something that the start needed. */
  lemma {:induction false} FatalsAreRefusals(log: seq<Call>, answers: nat -> bool)
    requires Honest(log, answers)
    ensures Fatals(log) > 0 <==> exists k :: 0 <= k < |log| && Fatal(log[k]) && !answers(k)
  {
    if log != [] {
      var n := |log| - 1;
      FatalsAreRefusals(log[..n], answers);
      if Fatals(log[..n]) > 0 {
        var k :| 0 <= k < n && Fatal(log[..n][k]) && !answers(k);
        assert Fatal(log[k]);
      }
      if k :| 0 <= k < n && Fatal(log[k]) && !answers(k) {
        assert Fatal(log[..n][k]);
      }
    }
  }

  /** A core that refuses nothing. */
  lemma WillingCore(log: seq<Call>, answers: nat -> bool)
    requires Honest(log, answers) && forall k :: answers(k)
    ensures Fatals(log) == 0
  {
    FatalsAreRefusals(log, answers);
  }

  // ---- What a clean log says about one reference ----

  ghost predicate Unborn(log: seq<Call>, r: Ref) {
    forall k :: 0 <= k < |log| ==> !Names(log[k], r)
  }

  /** Handed out at its place, and since then only used. */
  ghost predicate Alive(log: seq<Call>, r: Ref) {
    && r.id < |log| && log[r.id].Acquired? && log[r.id].ref == r
    && forall k :: 0 <= k < |log| && k != r.id && Names(log[k], r) ==> r.id < k && log[k] != Released(r)
  }

  /** Handed out, then only used, then released once at j, and not named again. */
  ghost predicate BuriedAt(log: seq<Call>, r: Ref, j: nat) {
    && r.id < j < |log| && log[r.id].Acquired? && log[r.id].ref == r && log[j] == Released(r)
    && forall k :: 0 <= k < |log| && k != r.id && k != j && Names(log[k], r) ==> r.id < k < j && log[k] != Released(r)
  }

  ghost predicate Buried(log: seq<Call>, r: Ref) {
    exists j: nat :: BuriedAt(log, r, j)
  }

  lemma UnnamedKeeps(log: seq<Call>, c: Call, r: Ref)
    requires !Names(c, r)
    ensures Unborn(log, r) ==> Unborn(log + [c], r)
    ensures Alive(log, r) ==> Alive(log + [c], r)
    ensures Buried(log, r) ==> Buried(log + [c], r)
  {
    if Buried(log, r) {
      var j: nat :| BuriedAt(log, r, j);
      assert BuriedAt(log + [c], r, j);
    }
  }

  lemma UseKeepsAlive(log: seq<Call>, c: Call, r: Ref)
    requires Alive(log, r) && c != Released(r)
    ensures Alive(log + [c], r)
  {
  }

  lemma ReleaseBuries(log: seq<Call>, r: Ref)
    requires Alive(log, r)
    ensures Buried(log + [Released(r)], r)
  {
    assert BuriedAt(log + [Released(r)], r, |log|);
  }

  lemma AcquireBears(log: seq<Call>, r: Ref, via: Option<Ref>, spec: Spec)
    requires Unborn(log, r) && r.id == |log|
    ensures Alive(log + [Acquired(r, via, spec)], r)
  {
  }

  /** In a clean log what is out was not released, and what is not out was released once. */
  lemma {:induction false} CleanLog(log: seq<Call>, r: Ref)
    requires Replay(log).Some?
    ensures r in Replay(log).value ==> Replay(log).value[r] == 1 && Alive(log, r)
    ensures r !in Replay(log).value ==> Unborn(log, r) || Buried(log, r)
  {
    if log != [] {
      var n := |log| - 1;
      var before, c := log[..n], log[n];
      assert log == before + [c];
      CleanLog(before, r);
      hide Unborn, Buried;
      if !Names(c, r) {
        UnnamedKeeps(before, c, r);
      } else if r in Replay(before).value {
        assert r.id < n;
        hide Alive;
        if c == Released(r) {
          ReleaseBuries(before, r);
        } else {
          UseKeepsAlive(before, c, r);
        }
      } else {
        assert c.Acquired? && c.ref == r;
        BuriedIsOld(before, r);
        AcquireBears(before, r, c.via, c.spec);
      }
    }
  }

  lemma BuriedIsOld(log: seq<Call>, r: Ref)
    ensures Buried(log, r) ==> r.id < |log|
  {
  }

  lemma AssociateCalls(a: seq<Call>, b: seq<Call>, c: seq<Call>)
    ensures a + b + c == a + (b + c) && a + [] == a
  {
  }

  class Core {
    const answers: nat -> bool                  // which calls succeed, by their place in the log
    const failing: nat -> set<ConfigFlag>       // what a failed test complains about
    const layouts: nat -> Layout                // what a layer turns out to be configured to
    var log: seq<Call>
    ghost var live: multiset<Ref>               // the references that are out
    ghost var listener: Option<Ref>             // the reference with the session's listener
    ghost var fatal: nat                        // how many refusals there were that no start survives

    constructor (answers: nat -> bool, failing: nat -> set<ConfigFlag>, layouts: nat -> Layout)
      ensures Valid() && log == [] && live == multiset{} && listener.None? && fatal == 0
      ensures this.answers == answers && this.failing == failing && this.layouts == layouts
    {
      this.answers, this.failing, this.layouts := answers, failing, layouts;
      log, live, listener, fatal := [], multiset{}, None, 0;
    }

    /** No reference was misused so far, and the log says what was answered. */
    ghost predicate Valid()
      reads this
    {
      Replay(log) == Some(live) && Listener(log) == listener && Fatals(log) == fatal && Honest(log, answers)
    }

    method Record(c: Call)
      requires Valid() && Step(live, |log|, c).Some? && Agrees(c, answers(|log|))
      modifies this
      ensures Valid() && log == old(log) + [c] && live == Step(old(live), |old(log)|, c).value
      ensures listener == Hear(old(listener), c)
      ensures fatal == old(fatal) + if Fatal(c) then 1 else 0
    {
      ReplaySnoc(log, c, answers);
      live := Step(live, |log|, c).value;
      listener := Hear(listener, c);
      fatal := fatal + if Fatal(c) then 1 else 0;
      log := log + [c];
    }

    method Acquire(kind: Kind, via: Option<Ref>, spec: Spec := NO_SPEC) returns (r: Option<Ref>)
      requires Valid() && Held(live, via)
      modifies this
      ensures Valid() && (r.Some? <==> answers(|old(log)|))
      ensures r.Some? ==> r.value == Ref(kind, |old(log)|) && live == old(live) + multiset{r.value}
      ensures r.None? ==> live == old(live)
      ensures listener == old(listener)
      ensures log == old(log) + [if r.Some? then Acquired(r.value, via, spec) else Refused(kind, via, spec)]
      ensures fatal == old(fatal) + if r.None? && Indispensable(kind, via) then 1 else 0
    {
      if answers(|log|) {
        r := Some(Ref(kind, |log|));
        Record(Acquired(r.value, via, spec));
      } else {
        r := None;
        Record(Refused(kind, via, spec));
      }
    }

    method Release(r: Ref)
      requires Valid() && r in live
      modifies this
      ensures Valid() && live == old(live) - multiset{r} && log == old(log) + [Released(r)]
      ensures listener == old(listener) && fatal == old(fatal)
    {
      Record(Released(r));
    }

    method Ask(r: Ref, what: Request) returns (ok: bool)
      requires Valid() && r in live && !what.Attach? && !what.Detach?
      modifies this
      ensures Valid() && live == old(live) && ok == answers(|old(log)|)
      ensures log == old(log) + [Used(r, what, ok)] && listener == old(listener)
      ensures fatal == old(fatal) + if what.SetConfiguration? && !ok then 1 else 0
    {
      ok := answers(|log|);
      Record(Used(r, what, ok));
    }

    /** A request that has no outcome to look at. */
    method Tell(r: Ref, what: Request)
      requires Valid() && r in live && !what.Attach? && !what.Detach?
      modifies this
      ensures Valid() && live == old(live) && log == old(log) + [Told(r, what)]
      ensures listener == old(listener) && fatal == old(fatal)
    {
      Record(Told(r, what));
    }

    /** A test of a layer configuration, with the flags it fails on. */
    method Test(r: Ref, flags: set<ConfigFlag>, mode: BufferMode) returns (ok: bool, fail: set<ConfigFlag>)
      requires Valid() && r in live
      modifies this
      ensures Valid() && live == old(live) && ok == answers(|old(log)|) && fail == failing(|old(log)|)
      ensures log == old(log) + [Used(r, TestConfiguration(flags, mode), ok)]
      ensures listener == old(listener) && fatal == old(fatal)
    {
      ok, fail := answers(|log|), failing(|log|);
      Record(Used(r, TestConfiguration(flags, mode), ok));
    }

    /** How a layer is configured now; this cannot fail. */
    method GetLayout(r: Ref) returns (layout: Layout)
      requires Valid() && r in live
      modifies this
      ensures Valid() && live == old(live) && layout == layouts(|old(log)|)
      ensures log == old(log) + [Told(r, GetConfiguration)]
      ensures listener == old(listener) && fatal == old(fatal)
    {
      layout := layouts(|log|);
      Record(Told(r, GetConfiguration));
    }

    method Consult() returns (ok: bool)
      requires Valid()
      modifies this
      ensures Valid() && live == old(live) && ok == answers(|old(log)|)
      ensures log == old(log) + [Consulted(ok)]
      ensures listener == old(listener) && fatal == old(fatal)
    {
      ok := answers(|log|);
      Record(Consulted(ok));
    }

    method EnableCursor(enable: bool)
      requires Valid()
      modifies this
      ensures Valid() && live == old(live) && log == old(log) + [Cursor(enable)]
      ensures listener == old(listener) && fatal == old(fatal)
    {
      Record(Cursor(enable));
    }

    /** Attaches the session's listener; it has no other one attached. */
    method Listen(r: Ref)
      requires Valid() && r in live && listener.None?
      modifies this
      ensures Valid() && live == old(live) && log == old(log) + [Told(r, Attach)] && listener == Some(r)
      ensures fatal == old(fatal)
    {
      Record(Told(r, Attach));
    }

    method Unlisten(r: Ref)
      requires Valid() && r in live && listener == Some(r)
      modifies this
      ensures Valid() && live == old(live) && log == old(log) + [Told(r, Detach)] && listener.None?
      ensures fatal == old(fatal)
    {
      Record(Told(r, Detach));
    }

    /** A listener has returned RS_REMOVE. */
    method DropListener(r: Ref)
      requires Valid()
      modifies this
      ensures Valid() && live == old(live) && log == old(log) + [Dropped(r)] && fatal == old(fatal)
      ensures listener == (if old(listener) == Some(r) then None else old(listener))
    {
      Record(Dropped(r));
    }
  }
}
