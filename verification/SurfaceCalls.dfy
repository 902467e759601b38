/**
  The requests of IDirectFB::CreateSurface: what a description asks for, which
  calls of the core make it a surface, and for which answers it comes about.
 */
module SurfaceCalls {
  import opened Basics
  import opened CoreLedger

  const MAX_SIZE := 20480
  const DEFAULT_SIZE := 256

  datatype Policy = SYSTEM_POLICY | VIDEO_POLICY | OTHER_POLICY

  /** The global configuration as far as the session looks at it. */
  datatype Config =
    Config(primaryId: bool, forceWindowed: bool, forceDesktop: bool, cursorAutomation: bool,
           scaledWidth: int, scaledHeight: int, windowPolicy: Policy, mode: Layout,
           fontFormat: int, fontPremultiplied: bool,
           formatForDepth: int -> int, supported: int -> bool, compatible: (int, int) -> bool,
           minPitch: (int, int) -> int)
  {
    predicate Scaled() {
      scaledWidth != 0 && scaledHeight != 0
    }
  }

  datatype Entries = Entries(given: bool, size: nat)

  datatype Buffer = Buffer(data: bool, pitch: int) {
    predicate Fits(minPitch: int) {
      data && minPitch <= pitch
    }
  }

  type Buffers = b: seq<Buffer> | |b| == 3 witness [Buffer(false, 0), Buffer(false, 0), Buffer(false, 0)]

  /** What a surface description asks for; an option that is not there is a flag that is not set. */
  datatype SurfaceDescription =
    SurfaceDescription(font: bool, width: Option<int>, height: Option<int>, format: Option<int>,
                       colorspace: Option<int>, caps: Option<set<Cap>>, palette: Option<Entries>,
                       preallocated: Option<Buffers>)

  const NOTHING_ASKED := SurfaceDescription(false, None, None, None, None, None, None, None)

  // ---- Fullscreen buffer modes ----

  /** The mode asked for and what may be tried after it. */
  function Ladder(caps: set<Cap>): (l: seq<BufferMode>)
    ensures 1 <= |l| <= 3
  {
    var first := if TRIPLE_BUFFER in caps then TRIPLE
                 else if DOUBLE_BUFFER in caps then (if SYSTEMONLY in caps then BACKSYSTEM else BACKVIDEO)
                 else FRONTONLY;
    if SYSTEMONLY in caps || VIDEOONLY in caps then [first]
    else if first == TRIPLE then [TRIPLE, BACKVIDEO, BACKSYSTEM]
    else if first == BACKVIDEO then [BACKVIDEO, BACKSYSTEM]
    else [first]
  }

  /** The configuration a fullscreen primary asks for, but for its buffer mode. */
  function LayerSpec(layout: Layout, caps: set<Cap>): Spec {
    Spec(Some(layout), caps * {PREMULTIPLIED, GL, STEREO})
  }

  /** A complete configuration with this buffer mode was asked for. */
  function Mode(context: Ref, spec: Spec, mode: BufferMode, ok: bool): Call {
    Used(context, SetBufferMode(mode, spec), ok)
  }

  /** One mode after the other was asked for and refused. */
  function Refusals(context: Ref, spec: Spec, modes: seq<BufferMode>): (calls: seq<Call>)
    ensures |calls| == |modes|
  {
    if modes == [] then []
    else
      var n := |modes| - 1;
      Refusals(context, spec, modes[..n]) + [Mode(context, spec, modes[n], false)]
  }

  /** The requests for a ladder of which the first n steps are refused and the next one is accepted. */
  function Attempts(context: Ref, spec: Spec, ladder: seq<BufferMode>, n: nat): (calls: seq<Call>)
    requires n < |ladder|
    ensures |calls| == n + 1
  {
    Refusals(context, spec, ladder[..n]) + [Mode(context, spec, ladder[n], true)]
  }

  /** The answer to the next step of a ladder. */
  lemma NextStep(log: seq<Call>, c: Ref, s: Spec, ladder: seq<BufferMode>, n: nat)
    requires n < |ladder|
    ensures log + Attempts(c, s, ladder, n) == log + Refusals(c, s, ladder[..n]) + [Mode(c, s, ladder[n], true)]
    ensures log + Refusals(c, s, ladder[..n + 1]) == log + Refusals(c, s, ladder[..n]) + [Mode(c, s, ladder[n], false)]
  {
    assert ladder[..n + 1][..n] == ladder[..n];
    var refused := Refusals(c, s, ladder[..n]);
    AssociateCalls(log, refused, [Mode(c, s, ladder[n], true)]);
    AssociateCalls(log, refused, [Mode(c, s, ladder[n], false)]);
  }

  lemma {:induction false} RefusalAt(c: Ref, spec: Spec, modes: seq<BufferMode>, k: nat)
    requires k < |modes|
    ensures Refusals(c, spec, modes)[k] == Mode(c, spec, modes[k], false)
  {
    if k < |modes| - 1 {
      RefusalAt(c, spec, modes[..|modes| - 1], k);
    }
  }

  /** The requests of a ladder, one by one: n of them refused, and one more accepted unless that was all. */
  lemma RequestAt(before: seq<Call>, after: seq<Call>, c: Ref, spec: Spec, ladder: seq<BufferMode>, n: nat, ok: bool,
                  k: nat)
    requires if ok then n < |ladder| else n == |ladder|
    requires after == before + if ok then Attempts(c, spec, ladder, n) else Refusals(c, spec, ladder)
    requires k < n || (ok && k == n)
    ensures |after| == |before| + if ok then n + 1 else n
    ensures after[|before| + k] == Used(c, SetBufferMode(ladder[k], spec), ok && k == n)
  {
    if k < n {
      RefusalAt(c, spec, if ok then ladder[..n] else ladder, k);
    }
  }

  /** One mode after the other was asked for, each request answered by the core, until it said yes to one. */
  ghost predicate InTurn(before: seq<Call>, after: seq<Call>, c: Ref, spec: Spec, asked: seq<BufferMode>, ok: bool,
                         answers: nat -> bool) {
    && |after| == |before| + |asked|
    && forall k :: 0 <= k < |asked| ==>
         && after[|before| + k] == Used(c, SetBufferMode(asked[k], spec), answers(|before| + k))
         && (answers(|before| + k) <==> ok && k == |asked| - 1)
  }

  /** The modes that were asked for one after the other, and the rules they follow. */
  lemma Descent(before: seq<Call>, after: seq<Call>, c: Ref, spec: Spec, caps: set<Cap>, n: nat, ok: bool,
                answers: nat -> bool)
    returns (asked: seq<BufferMode>)
    requires if ok then n < |Ladder(caps)| else n == |Ladder(caps)|
    requires after == before + if ok then Attempts(c, spec, Ladder(caps), n) else Refusals(c, spec, Ladder(caps))
    requires if ok then FirstYes(answers, |before|, n) else AllNo(answers, |before|, n)
    ensures asked != [] && InTurn(before, after, c, spec, asked, ok, answers)
    // the mode asked for first
    ensures TRIPLE_BUFFER in caps ==> asked[0] == TRIPLE
    ensures TRIPLE_BUFFER !in caps && DOUBLE_BUFFER in caps ==>
      asked[0] == if SYSTEMONLY in caps then BACKSYSTEM else BACKVIDEO
    ensures TRIPLE_BUFFER !in caps && DOUBLE_BUFFER !in caps ==> asked[0] == FRONTONLY
    // what may follow, and when nothing does
    ensures SYSTEMONLY in caps || VIDEOONLY in caps ==> |asked| == 1
    ensures |asked| >= 2 ==>
      (asked[0] == TRIPLE && asked[1] == BACKVIDEO) || (asked[0] == BACKVIDEO && asked[1] == BACKSYSTEM)
    ensures |asked| >= 3 ==> |asked| == 3 && asked[1] == BACKVIDEO && asked[2] == BACKSYSTEM
    ensures !ok && SYSTEMONLY !in caps && VIDEOONLY !in caps ==>
      asked[|asked| - 1] == BACKSYSTEM || asked[|asked| - 1] == FRONTONLY
    ensures ok ==> n == |asked| - 1 && asked[n] == Ladder(caps)[n]
  {
    asked := Ladder(caps)[..if ok then n + 1 else n];
    LadderRules(caps, asked);
    hide Ladder;
    AskedInTurn(before, after, c, spec, Ladder(caps), n, ok, answers);
    hide InTurn, Attempts, Refusals, FirstYes, AllNo;
  }

  lemma AskedInTurn(before: seq<Call>, after: seq<Call>, c: Ref, spec: Spec, ladder: seq<BufferMode>, n: nat, ok: bool,
                    answers: nat -> bool)
    requires (if ok then n < |ladder| else n == |ladder|) && ladder != []
    requires after == before + if ok then Attempts(c, spec, ladder, n) else Refusals(c, spec, ladder)
    requires if ok then FirstYes(answers, |before|, n) else AllNo(answers, |before|, n)
    ensures InTurn(before, after, c, spec, ladder[..if ok then n + 1 else n], ok, answers)
  {
    var m := if ok then n + 1 else n;
    forall k | 0 <= k < m
      ensures |after| == |before| + m && (answers(|before| + k) <==> ok && k == n)
      ensures after[|before| + k] == Used(c, SetBufferMode(ladder[k], spec), answers(|before| + k))
    {
      RequestAt(before, after, c, spec, ladder, n, ok, k);
      hide Attempts, Refusals;
    }
    hide Attempts, Refusals, FirstYes, AllNo;
  }

  lemma LadderRules(caps: set<Cap>, asked: seq<BufferMode>)
    requires asked != [] && asked <= Ladder(caps)
    ensures TRIPLE_BUFFER in caps ==> asked[0] == TRIPLE
    ensures TRIPLE_BUFFER !in caps && DOUBLE_BUFFER in caps ==>
      asked[0] == if SYSTEMONLY in caps then BACKSYSTEM else BACKVIDEO
    ensures TRIPLE_BUFFER !in caps && DOUBLE_BUFFER !in caps ==> asked[0] == FRONTONLY
    ensures SYSTEMONLY in caps || VIDEOONLY in caps ==> |asked| == 1
    ensures |asked| >= 2 ==>
      (asked[0] == TRIPLE && asked[1] == BACKVIDEO) || (asked[0] == BACKVIDEO && asked[1] == BACKSYSTEM)
    ensures |asked| >= 3 ==> |asked| == 3 && asked[1] == BACKVIDEO && asked[2] == BACKSYSTEM
    ensures asked == Ladder(caps) && SYSTEMONLY !in caps && VIDEOONLY !in caps ==>
      asked[|asked| - 1] == BACKSYSTEM || asked[|asked| - 1] == FRONTONLY
  {
  }

  /** Asked for both double and triple buffering, the application is told which of them it got. */
  function Granted(caps: set<Cap>, mode: BufferMode): (granted: set<Cap>)
    ensures !(DOUBLE_BUFFER in granted && TRIPLE_BUFFER in granted)
  {
    if DOUBLE_BUFFER in caps && TRIPLE_BUFFER in caps
    then caps - {if mode == TRIPLE then DOUBLE_BUFFER else TRIPLE_BUFFER}
    else caps
  }

  /** Every other surface that asks for both is double buffered. */
  function OneBuffering(caps: set<Cap>): (granted: set<Cap>)
    ensures !(DOUBLE_BUFFER in granted && TRIPLE_BUFFER in granted)
  {
    if DOUBLE_BUFFER in caps && TRIPLE_BUFFER in caps then caps - {TRIPLE_BUFFER} else caps
  }

  /** Where a window is kept if it does not say so. */
  function PolicyCaps(caps: set<Cap>, policy: Policy): set<Cap> {
    if SYSTEMONLY in caps || VIDEOONLY in caps then caps
    else match policy
      case SYSTEM_POLICY => caps + {SYSTEMONLY}
      case VIDEO_POLICY => caps + {VIDEOONLY}
      case OTHER_POLICY => caps
  }

  /** What becomes of the capabilities, by the kind of the surface. */
  lemma CapsWrittenOut(caps: set<Cap>, policy: Policy)
    ensures OneBuffering(caps) ==
      if DOUBLE_BUFFER in caps && TRIPLE_BUFFER in caps then caps - {TRIPLE_BUFFER} else caps
    ensures SYSTEMONLY in caps || VIDEOONLY in caps || policy == OTHER_POLICY ==> PolicyCaps(caps, policy) == caps
    ensures SYSTEMONLY !in caps && VIDEOONLY !in caps && policy == SYSTEM_POLICY ==>
      PolicyCaps(caps, policy) == caps + {SYSTEMONLY}
    ensures SYSTEMONLY !in caps && VIDEOONLY !in caps && policy == VIDEO_POLICY ==>
      PolicyCaps(caps, policy) == caps + {VIDEOONLY}
  {
  }

  // ---- What is asked of the core for a surface ----

  /** The capabilities a description stands for. */
  function AskedOf(desc: SurfaceDescription, config: Config): set<Cap> {
    if desc.caps.Some? then desc.caps.value
    else if desc.font && config.fontPremultiplied then {PREMULTIPLIED}
    else {}
  }

  function FirstGiven(asked: Option<int>, remembered: int, configured: int, current: int): int {
    if asked.Some? then asked.value
    else if remembered != 0 then remembered
    else if configured != 0 then configured
    else current
  }

  function LayoutAsked(c: Call): Option<Layout> {
    match c
    case Acquired(_, _, spec) => spec.layout
    case Used(_, SetBufferMode(_, spec), _) => spec.layout
    case _ => None
  }

  /** The n-th call asks for a layout. */
  predicate AsksAt(log: seq<Call>, n: nat, layout: Layout) {
    n < |log| && LayoutAsked(log[n]) == Some(layout)
  }

  /** The interface was handed out with these capabilities. */
  predicate Carries(log: seq<Call>, r: Ref, caps: set<Cap>) {
    r.id < |log| && log[r.id].Acquired? && log[r.id].ref == r && log[r.id].spec == Spec(None, caps)
  }

  predicate BuffersFit(buffers: Buffers, caps: set<Cap>, minPitch: int) {
    && buffers[0].Fits(minPitch)
    && (DOUBLE_BUFFER in caps || TRIPLE_BUFFER in caps ==> buffers[1].Fits(minPitch))
    && (TRIPLE_BUFFER in caps && DOUBLE_BUFFER !in caps ==> buffers[2].Fits(minPitch))
  }

  /** How many calls setting the palette takes, from place n of the log. */
  function PaletteSteps(desc: SurfaceDescription, n: nat, answers: nat -> bool): nat {
    if desc.palette.None? then 0 else if answers(n) then 3 else 1
  }

  function PaletteCalls(surface: Ref, desc: SurfaceDescription, n: nat, answers: nat -> bool): (calls: seq<Call>)
    ensures |calls| == PaletteSteps(desc, n, answers)
  {
    var palette := Ref(PALETTE, n);
    if desc.palette.None? then []
    else if answers(n) then [Acquired(palette, Some(surface)), Told(palette, SetEntries), Released(palette)]
    else [Refused(PALETTE, Some(surface))]
  }

  function HandOutCalls(iface: Ref, s: Ref, caps: set<Cap>, desktop: bool): seq<Call> {
    [Acquired(iface, Some(s), Spec(None, caps))] +
    if desktop then [Told(s, BecomeBackground), Released(s)] else [Released(s)]
  }

  /** From a new surface to its interface. */
  function WrapCalls(iface: Ref, s: Ref, caps: set<Cap>, desc: SurfaceDescription, desktop: bool, n: nat,
                     answers: nat -> bool): seq<Call> {
    PaletteCalls(s, desc, n, answers) + HandOutCalls(iface, s, caps, desktop)
  }

  function WindowCalls(w: Ref, config: Config): (calls: seq<Call>)
    ensures |calls| == if config.Scaled() then 3 else 2
  {
    [Told(w, ChangeOptions), Told(w, AllowFocus)] +
    if config.Scaled() then [Told(w, Resize(config.scaledWidth, config.scaledHeight))] else []
  }

  /** Nothing would show this primary before its first flip. */
  predicate Shows(mode: BufferMode) {
    mode != BACKVIDEO && mode != TRIPLE
  }

  function ShowCalls(iface: Ref, region: Ref, s: Ref, mode: BufferMode, caps: set<Cap>): seq<Call> {
    (if Shows(mode) then [Told(region, Show)] else []) + [Acquired(iface, Some(region), Spec(None, caps))] +
    [Released(s)] + [Released(region)]
  }

  /** From the surface of a region to the interface of the region, with both given back. */
  function RegionCalls(iface: Ref, region: Ref, s: Ref, mode: BufferMode, desc: SurfaceDescription, caps: set<Cap>,
                       n: nat, answers: nat -> bool): seq<Call> {
    PaletteCalls(s, desc, n, answers) + ShowCalls(iface, region, s, mode, caps)
  }

  lemma HandedOut(log: seq<Call>, iface: Ref, s: Ref, caps: set<Cap>, desktop: bool)
    requires iface.id == |log|
    ensures
      var first := log + [Acquired(iface, Some(s), Spec(None, caps))];
      log + HandOutCalls(iface, s, caps, desktop) ==
        if desktop then first + [Told(s, BecomeBackground)] + [Released(s)] else first + [Released(s)]
    ensures Carries(log + HandOutCalls(iface, s, caps, desktop), iface, caps)
  {
  }

  lemma HandOutSetsNoPalette(iface: Ref, s: Ref, caps: set<Cap>, desktop: bool)
    requires iface.kind == INTERFACE
    ensures NoPalette(HandOutCalls(iface, s, caps, desktop), 0, |HandOutCalls(iface, s, caps, desktop)|)
  {
  }

  lemma ShowSetsNoPalette(iface: Ref, region: Ref, s: Ref, mode: BufferMode, caps: set<Cap>)
    requires iface.kind == INTERFACE
    ensures NoPalette(ShowCalls(iface, region, s, mode, caps), 0, |ShowCalls(iface, region, s, mode, caps)|)
  {
  }

  lemma Shown(log: seq<Call>, iface: Ref, region: Ref, s: Ref, mode: BufferMode, caps: set<Cap>)
    requires iface.id == |log| + if Shows(mode) then 1 else 0
    ensures
      var first := log + if Shows(mode) then [Told(region, Show)] else [];
      log + ShowCalls(iface, region, s, mode, caps) ==
        first + [Acquired(iface, Some(region), Spec(None, caps))] + [Released(s)] + [Released(region)]
    ensures Carries(log + ShowCalls(iface, region, s, mode, caps), iface, caps)
  {
  }

  // ---- The palette and the interface ----

  /** A step of setting a palette. */
  predicate AboutPalette(c: Call) {
    || (c.Acquired? && c.ref.kind == PALETTE)
    || (c.Refused? && c.kind == PALETTE)
    || (c.Told? && c.what == SetEntries)
  }

  /** From place n on a palette is set if one is asked for, and that all before the interface exists, or all after. */
  ghost predicate PaletteOrder(log: seq<Call>, n: nat, iface: Ref, desc: SurfaceDescription, before: bool) {
    && PaletteIn(log, n, desc)
    && forall k :: n <= k < |log| && AboutPalette(log[k]) ==> (k < iface.id <==> before)
  }

  ghost predicate PaletteIn(log: seq<Call>, n: nat, desc: SurfaceDescription) {
    desc.palette.Some? <==> exists k :: n <= k < |log| && AboutPalette(log[k])
  }

  ghost predicate NoPalette(log: seq<Call>, m: nat, n: nat) {
    forall k :: m <= k < n && k < |log| ==> !AboutPalette(log[k])
  }

  lemma PaletteOrderSince(log: seq<Call>, m: nat, n: nat, iface: Ref, desc: SurfaceDescription, before: bool)
    requires m <= n && NoPalette(log, m, n) && PaletteOrder(log, n, iface, desc, before)
    ensures PaletteOrder(log, m, iface, desc, before)
  {
  }

  /** The palette is set by what follows a, and the interface is not among that. */
  lemma PaletteOrderIs(a: seq<Call>, surface: Ref, desc: SurfaceDescription, answers: nat -> bool, b: seq<Call>,
                       iface: Ref)
    requires NoPalette(b, 0, |b|)
    requires iface.id < |a| || |a + PaletteCalls(surface, desc, |a|, answers)| <= iface.id
    ensures PaletteOrder(a + PaletteCalls(surface, desc, |a|, answers) + b, |a|, iface, desc, |a| <= iface.id)
  {
    var p := PaletteCalls(surface, desc, |a|, answers);
    var log := a + p + b;
    assert forall k :: |a| <= k < |a + p| ==> log[k] == p[k - |a|];
    assert forall k :: |a + p| <= k < |log| ==> log[k] == b[k - |a + p|];
    if desc.palette.Some? {
      assert AboutPalette(log[|a|]);
    }
  }

  lemma PaletteInIs(a: seq<Call>, surface: Ref, desc: SurfaceDescription, answers: nat -> bool)
    ensures PaletteIn(a + PaletteCalls(surface, desc, |a|, answers), |a|, desc)
  {
    var p := PaletteCalls(surface, desc, |a|, answers);
    assert forall k :: |a| <= k < |a + p| ==> (a + p)[k] == p[k - |a|];
    if desc.palette.Some? {
      assert AboutPalette((a + p)[|a|]);
    }
  }

  /** When the interface is the last thing that is made, its surface has its palette. */
  lemma PaletteOrderAtEnd(log: seq<Call>, m: nat, n: nat, iface: Ref, via: Option<Ref>, spec: Spec,
                          desc: SurfaceDescription)
    requires m <= n <= |log| && NoPalette(log, m, n) && PaletteIn(log, n, desc)
    requires iface == Ref(INTERFACE, |log|)
    ensures PaletteOrder(log + [Acquired(iface, via, spec)], m, iface, desc, true)
  {
    var after := log + [Acquired(iface, via, spec)];
    assert after[..|log|] == log;
    if k: nat :| n <= k < |log| && AboutPalette(log[k]) {
      assert AboutPalette(after[k]);
    }
  }

  lemma {:induction false} RefusalsSetNoPalette(c: Ref, spec: Spec, modes: seq<BufferMode>)
    ensures NoPalette(Refusals(c, spec, modes), 0, |modes|)
  {
    if modes != [] {
      RefusalsSetNoPalette(c, spec, modes[..|modes| - 1]);
    }
  }

  // ---- When the core serves a request for a surface that starts at place n of the log ----

  /** An interface is given out, whether the palette could be set or not. */
  predicate WrapServed(desc: SurfaceDescription, n: nat, answers: nat -> bool) {
    answers(n + PaletteSteps(desc, n, answers))
  }

  predicate PlainServed(desc: SurfaceDescription, n: nat, answers: nat -> bool) {
    answers(n) && WrapServed(desc, n + 1, answers)
  }

  predicate WindowServed(desc: SurfaceDescription, config: Config, window: Option<Ref>, n: nat, answers: nat -> bool) {
    var opening := 2 + |DropCalls(window, config, true)| + if config.Scaled() then 3 else 2;
    answers(n) && WrapServed(desc, n + opening, answers)
  }

  predicate ShowServed(desc: SurfaceDescription, mode: BufferMode, n: nat, answers: nat -> bool) {
    answers(n + PaletteSteps(desc, n, answers) + if Shows(mode) then 1 else 0)
  }

  predicate LayerServed(desc: SurfaceDescription, mode: BufferMode, n: nat, answers: nat -> bool) {
    answers(n) && answers(n + 1) && ShowServed(desc, mode, n + 2, answers)
  }

  /** Of the questions from place n on, the i-th is the first that is answered yes. */
  predicate FirstYes(answers: nat -> bool, n: nat, i: nat) {
    answers(n + i) && AllNo(answers, n, i)
  }

  predicate AllNo(answers: nat -> bool, n: nat, length: nat) {
    forall k :: n <= k < n + length ==> !answers(k)
  }

  ghost predicate FullscreenServed(desc: SurfaceDescription, caps: set<Cap>, n: nat, answers: nat -> bool) {
    exists i :: 0 <= i < |Ladder(caps)| &&
      FirstYes(answers, n, i) && LayerServed(desc, Ladder(caps)[i], n + i + 1, answers)
  }

  /** A windowed primary, call by call: the new window, the end of the old one, then palette and interface. */
  ghost predicate WindowLog(before: seq<Call>, after: seq<Call>, iface: Ref, desc: SurfaceDescription, layout: Layout,
                            config: Config, replaced: Option<Ref>, context: Option<Ref>, answers: nat -> bool) {
    var w, caps := Ref(WINDOW, |before|), PolicyCaps(AskedOf(desc, config), config.windowPolicy);
    var opening := before + [Acquired(w, context, Spec(Some(layout), caps))] + DropCalls(replaced, config, true) +
      [Told(w, Attach)] + WindowCalls(w, config);
    after == opening + PaletteCalls(w, desc, |opening|, answers) + [Acquired(iface, Some(w), Spec(None, caps))]
  }

  lemma NoPaletteAppend(log: seq<Call>, more: seq<Call>, m: nat)
    requires NoPalette(log, m, |log|)
    ensures NoPalette(log + more, m, |log|)
  {
  }

  lemma DropSetsNoPalette(before: seq<Call>, w: Ref, context: Option<Ref>, spec: Spec, replaced: Option<Ref>,
                          config: Config, after: seq<Call>)
    requires w.kind == WINDOW
    requires before + [Acquired(w, context, spec)] + DropCalls(replaced, config, true) + [Told(w, Attach)] <= after
    ensures NoPalette(after, |before|, |before| + 2 + |DropCalls(replaced, config, true)|) && before <= after
  {
    var opening := before + [Acquired(w, context, spec)] + DropCalls(replaced, config, true) + [Told(w, Attach)];
    assert forall k :: 0 <= k < |opening| ==> after[k] == opening[k];
  }

  lemma ServedByFirst(desc: SurfaceDescription, caps: set<Cap>, n: nat, answers: nat -> bool, i: nat)
    requires i < |Ladder(caps)| && FirstYes(answers, n, i)
    ensures FullscreenServed(desc, caps, n, answers) <==> LayerServed(desc, Ladder(caps)[i], n + i + 1, answers)
  {
    hide LayerServed, Ladder;
  }

  lemma NeverServed(desc: SurfaceDescription, caps: set<Cap>, n: nat, answers: nat -> bool)
    requires AllNo(answers, n, |Ladder(caps)|)
    ensures !FullscreenServed(desc, caps, n, answers)
  {
    hide LayerServed, Ladder;
  }

  /** A configured layer is turned into a primary, call by call. */
  ghost predicate LayerLog(before: seq<Call>, after: seq<Call>, c: Ref, iface: Ref, mode: BufferMode,
                           desc: SurfaceDescription, caps: set<Cap>, answers: nat -> bool) {
    var n := |before|;
    var r, s := Ref(REGION, n), Ref(SURFACE, n + 1);
    after == before + [Acquired(r, Some(c)), Acquired(s, Some(r))] +
      RegionCalls(iface, r, s, mode, desc, caps, n + 2, answers)
  }

  /** A fullscreen primary: the ladder is climbed down to step i, and the layer made a primary. */
  ghost predicate FullscreenLog(before: seq<Call>, after: seq<Call>, c: Ref, iface: Ref, desc: SurfaceDescription,
                                caps: set<Cap>, layout: Layout, i: nat, answers: nat -> bool)
    requires i < |Ladder(caps)|
  {
    var mode := Ladder(caps)[i];
    LayerLog(before + Attempts(c, LayerSpec(layout, caps), Ladder(caps), i), after, c, iface, mode, desc,
             Granted(caps, mode), answers)
  }

  /** All steps of a ladder ask for the same layout. */
  lemma AskedFirst(before: seq<Call>, after: seq<Call>, c: Ref, iface: Ref, desc: SurfaceDescription, caps: set<Cap>,
                   layout: Layout, i: nat, answers: nat -> bool)
    requires i < |Ladder(caps)|
    requires FullscreenLog(before, after, c, iface, desc, caps, layout, i, answers)
    ensures AsksAt(after, |before|, layout)
  {
    var tried := Attempts(c, LayerSpec(layout, caps), Ladder(caps), i);
    hide Ladder, RegionCalls;
    AllAsk(c, LayerSpec(layout, caps), Ladder(caps)[..i]);
    assert after[|before|] == tried[0];
  }

  lemma AttemptsSetNoPalette(before: seq<Call>, after: seq<Call>, c: Ref, iface: Ref, desc: SurfaceDescription,
                             caps: set<Cap>, layout: Layout, i: nat, answers: nat -> bool)
    requires i < |Ladder(caps)|
    requires FullscreenLog(before, after, c, iface, desc, caps, layout, i, answers)
    ensures NoPalette(after, |before|, |before| + i + 1) && before <= after
  {
    var spec := LayerSpec(layout, caps);
    var tried := Attempts(c, spec, Ladder(caps), i);
    hide Ladder, RegionCalls;
    RefusalsSetNoPalette(c, spec, Ladder(caps)[..i]);
    assert forall k :: |before| <= k < |before + tried| ==> after[k] == tried[k - |before|];
  }

  lemma {:induction false} AllAsk(c: Ref, spec: Spec, modes: seq<BufferMode>)
    ensures forall k :: 0 <= k < |modes| ==> LayoutAsked(Refusals(c, spec, modes)[k]) == spec.layout
  {
    if modes != [] {
      AllAsk(c, spec, modes[..|modes| - 1]);
    }
  }

  /** What dropping the window asks of the core. */
  function DropCalls(window: Option<Ref>, config: Config, enableCursor: bool): seq<Call> {
    match window
    case None => []
    case Some(w) =>
      [Told(w, Detach), Released(w)] + if config.cursorAutomation then [Cursor(enableCursor)] else []
  }
}
