/**
  Whole runs of a session: from its construction over any sequence of calls and
  window events, with any of the core's calls failing, to its destruction.
 */
module SessionRuns {
  import opened Basics
  import opened CoreLedger
  import opened Books
  import opened SurfaceCalls
  import opened Permutations
  import InputFilter
  import opened Session

  datatype Event =
    | SetsLevel(level: Level)
    | SetsMode(width: int, height: int, bpp: int)
    | Creates(desc: SurfaceDescription)
    | Returns(index: nat)               // the application releases an interface it holds
    | Window(event: WindowEvent)        // delivered only while there is a primary window
    | AppFocus(focused: bool)
    | Arrives(input: InputFilter.Event) // seen by an event buffer with the local filter

  /** The session is in order, and the application holds exactly these interfaces. */
  ghost predicate InOrder(session: IDirectFB, held: seq<Ref>)
    reads session, session.core
  {
    && session.Valid() && session.handedOut == multiset(held)
    && forall i :: 0 <= i < |held| ==> held[i].kind == INTERFACE
  }

  method Create(session: IDirectFB, held: seq<Ref>, desc: SurfaceDescription) returns (held': seq<Ref>)
    requires InOrder(session, held)
    modifies session, session.core
    ensures InOrder(session, held')
  {
    hide Replay, Listener, Honest, Fatals, Balanced;
    var ret, iface := session.CreateSurface(desc);
    held' := if iface.Some? then held + [iface.value] else held;
  }

  method Return(session: IDirectFB, held: seq<Ref>, index: nat) returns (held': seq<Ref>)
    requires InOrder(session, held) && index < |held|
    modifies session, session.core
    ensures InOrder(session, held')
  {
    hide Replay, Listener, Honest, Fatals, Balanced;
    RemoveAt(held, index);
    session.ReleaseInterface(held[index]);
    held' := held[..index] + held[index + 1..];
  }

  /** Carries out one event. */
  method Carry(session: IDirectFB, held: seq<Ref>, e: Event) returns (held': seq<Ref>)
    requires InOrder(session, held)
    modifies session, session.core
    ensures InOrder(session, held')
  {
    hide Replay, Listener, Honest, Fatals, Balanced;
    held' := held;
    match e
    case SetsLevel(level) =>
      var _ := session.SetCooperativeLevel(level);
    case SetsMode(width, height, bpp) =>
      var _ := session.SetVideoMode(width, height, bpp);
    case Creates(desc) =>
      held' := Create(session, held, desc);
    case Returns(index) =>
      if index < |held| {
        held' := Return(session, held, index);
      }
    case Window(event) =>
      if session.window.Some? {
        session.FocusListener(event);
      }
    case AppFocus(focused) =>
      session.SetAppFocus(focused);
    case Arrives(input) =>
      var _ := session.InputFilterLocal(input);
  }

  /**
    A video mode that was accepted is what the next primary asks the core for,
    in a window, on the desktop or in fullscreen, unless its description says
    otherwise.
   */
  method PrimaryInMode(session: IDirectFB, width: int, height: int, bpp: int, desc: SurfaceDescription)
    returns (moded: Result, ret: Result, iface: Option<Ref>, ghost place: nat)
    requires session.Valid() && session.OwnPrimary(desc)
    modifies session, session.core
    ensures session.Valid() && place >= |old(session.core.log)|
    ensures moded == OK && ret == OK ==>
      AsksAt(session.core.log, place,
             Layout(if desc.width.Some? then desc.width.value else width,
                    if desc.height.Some? then desc.height.value else height,
                    if desc.format.Some? then desc.format.value else session.config.formatForDepth(bpp)))
  {
    hide Replay, Listener, Honest, Fatals, Balanced, AsksAt;
    moded := session.SetVideoMode(width, height, bpp);
    place := |session.core.log| + 1;
    ret, iface := session.CreateSurface(desc);
  }

  /** Released exactly once, and used only between being taken and being released. */
  ghost predicate Settles(log: seq<Call>, r: Ref) {
    Unborn(log, r) || Buried(log, r)
  }

  /**
    At the end of every run every window, context, region, surface, palette and
    provider reference ever taken has been released exactly once and was never
    used afterwards; the only references still out are the interfaces the
    application did not return.  If the session never got ready, its first
    context is still out, unless it was never given one.
   */
  method Run(answers: nat -> bool, failing: nat -> set<ConfigFlag>, layouts: nat -> Layout, config: Config,
             master: bool, confs: seq<LayerConfig>, events: seq<Event>)
    returns (ready: bool, held: seq<Ref>, log: seq<Call>)
    requires |confs| <= MAX_LAYERS
    ensures Honest(log, answers)
    ensures forall r: Ref :: r in held ==> Alive(log, r) && (ready ==> r.kind == INTERFACE)
    ensures forall r: Ref :: r !in held ==> Settles(log, r)
    ensures !ready ==> held == if answers(0) then [Ref(CONTEXT, 0)] else []
    // when a session gets ready
    ensures !master ==> (ready <==> answers(0))
    ensures !ready ==> exists k :: 0 <= k < |log| && Fatal(log[k]) && !answers(k)
    ensures ready && master && AnyInit(confs) ==> answers(0) && answers(1)
    ensures (forall k :: answers(k)) ==> ready
  {
    hide Replay, Listener, Honest, Fatals, Fatal, Balanced, Alive, Settles;
    var core := new Core(answers, failing, layouts);
    var session := new IDirectFB(core, config);
    session.InitAsync(master, confs);
    ready := session.initDone;
    if forall k :: answers(k) {
      WillingCore(core.log, answers);
    }
    if ready {
      held := Live(session, events);
    } else {
      held := if session.context.Some? then [session.context.value] else [];
    }
    log := core.log;
    FatalsAreRefusals(log, answers);
    Outcome(log, held);
  }

  /** A start that fails at its first layer: the context it had taken before stays out. */
  method LeakingStart(config: Config, layer: LayerConfig) returns (ready: bool, held: seq<Ref>, log: seq<Call>)
    requires layer.init
    ensures !ready && held == [Ref(CONTEXT, 0)] && Alive(log, Ref(CONTEXT, 0))
  {
    hide Honest, Fatals, Alive, Settles;
    assert AnyInit([layer]) by {
      assert [layer][0].init;
    }
    ready, held, log := Run(k => k == 0, k => {}, k => Layout(0, 0, 0), config, true, [layer], []);
    assert Ref(CONTEXT, 0) in held;
  }

  /** A windowed primary that asks for double and triple buffering is told that it has both. */
  method ToldBoth(config: Config, desc: SurfaceDescription) returns (told: set<Cap>)
    requires !config.primaryId && !config.forceDesktop && config.supported(0)
    requires desc == NOTHING_ASKED.(caps := Some({PRIMARY, DOUBLE_BUFFER, TRIPLE_BUFFER}))
    ensures {DOUBLE_BUFFER, TRIPLE_BUFFER} <= told
  {
    hide Replay, Listener, Honest, Fatals, Balanced;
    var core := new Core(k => true, k => {}, k => Layout(1, 1, 0));
    var session := new IDirectFB(core, config);
    session.InitAsync(false, []);
    session.WillingServes(desc, |core.log| + 1);
    hide WindowServed;
    var ret, iface := session.CreateSurface(desc);
    told := core.log[iface.value.id].spec.caps;
    session.GrantsOneBuffering(desc, told);
  }

  /** From the end of its construction to its destruction. */
  method Live(session: IDirectFB, events: seq<Event>) returns (held: seq<Ref>)
    requires session.Valid() && session.handedOut == multiset{}
    modifies session, session.core
    ensures session.core.Valid() && session.core.live == multiset(held) && session.core.listener.None?
    ensures forall i :: 0 <= i < |held| ==> held[i].kind == INTERFACE
  {
    hide Replay, Listener, Honest, Fatals, Balanced;
    held := [];
    for i := 0 to |events|
      invariant InOrder(session, held)
    {
      held := Carry(session, held, events[i]);
    }
    session.Destruct();
  }

  lemma Outcome(log: seq<Call>, held: seq<Ref>)
    requires Replay(log) == Some(multiset(held))
    ensures forall r: Ref :: r in held ==> Alive(log, r)
    ensures forall r: Ref :: r !in held ==> Settles(log, r)
  {
    forall r: Ref ensures (r in held ==> Alive(log, r)) && (r !in held ==> Settles(log, r)) {
      CleanLog(log, r);
      assert r in held <==> r in multiset(held);
    }
  }
}
