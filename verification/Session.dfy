/**
  The main interface of src/idirectfb.c: cooperative level, primary window or
  context, focus, and the layers set up at start, with every reference it takes
  from the core accounted for.
 */
module Session {
  import opened Basics
  import opened CoreLedger
  import opened Books
  import opened SurfaceCalls
  import InputFilter

  datatype Level = NORMAL | FULLSCREEN | EXCLUSIVE | UNKNOWN_LEVEL(code: int)

  datatype Result = OK | INVARG | ACCESSDENIED | UNSUPPORTED | CORE_FAILURE

  datatype WindowEvent = DESTROYED | GOTFOCUS | LOSTFOCUS | OTHER_EVENT

  /** A tile has the description its provider gives. */
  datatype Background = NO_BACKGROUND | COLOR | IMAGE | TILE(provided: SurfaceDescription)

  datatype LayerConfig =
    LayerConfig(init: bool, flags: set<ConfigFlag>, mode: BufferMode, paletteSet: bool, background: Background)

  /** Some layer is to be initialised. */
  predicate AnyInit(confs: seq<LayerConfig>) {
    exists i :: 0 <= i < |confs| && confs[i].init
  }

  const MAX_LAYERS := 16

  class IDirectFB {
    const core: Core
    const config: Config
    var level: Level
    var context: Option<Ref>          // shared context of the primary layer
    var window: Option<Ref>           // primary.window
    var primaryContext: Option<Ref>   // primary.context
    var focused: bool                 // primary.focused
    var appFocus: bool
    var width: int
    var height: int
    var format: int
    var layers: seq<Slot>
    var initDone: bool
    ghost var handedOut: multiset<Ref> // interfaces the application holds

    constructor (core: Core, config: Config)
      ensures this.core == core && this.config == config && Blank() && !initDone && handedOut == multiset{}
    {
      this.core, this.config := core, config;
      level, context, window, primaryContext := NORMAL, None, None, None;
      focused, appFocus, width, height, format := false, false, 0, 0, 0;
      layers := seq(MAX_LAYERS, _ => EMPTY_SLOT);
      initDone := false;
      handedOut := multiset{};
    }

    /** Nothing was taken yet. */
    ghost predicate Blank()
      reads this
    {
      && level == NORMAL && context.None? && window.None? && primaryContext.None? && !focused
      && |layers| == MAX_LAYERS && forall i :: 0 <= i < MAX_LAYERS ==> layers[i].context.None?
    }

    /** The core's books and the session's agree, up to references that are in flight. */
    ghost predicate Accounts(inFlight: Option<Ref>)
      reads this, core
    {
      && core.Valid() && Balanced(core.live, context, window, primaryContext, layers, handedOut, inFlight)
      && core.listener == window  // the session listens to its primary window and to nothing else
    }

    /** How level, primary and focus belong together. */
    ghost predicate Consistent()
      reads this`level, this`window, this`primaryContext, this`focused
    {
      && !level.UNKNOWN_LEVEL?
      && (level == NORMAL <==> primaryContext.None?)
      && (level != NORMAL ==> window.None? && focused)
      && (focused && level == NORMAL ==> window.Some?)
    }

    /** Every reference that is out has exactly one holder, and the session is in a consistent state. */
    ghost predicate Valid()
      reads this, core
    {
      Accounts(None) && Settled()
    }

    ghost predicate Settled()
      reads this`level, this`context, this`window, this`primaryContext, this`focused, this`layers
    {
      && Consistent() && context.Some?
      && |layers| == MAX_LAYERS && forall i :: 0 <= i < MAX_LAYERS ==> layers[i].Valid()
    }

    // ---- Window and focus ----

    method DropWindow(enableCursor: bool, ghost inFlight: Option<Ref>)
      requires Accounts(inFlight)
      modifies this`window, this`focused, core
      ensures Accounts(inFlight)
      ensures window.None? && focused == (old(focused) && old(window).None?)
      ensures core.log == old(core.log) + DropCalls(old(window), config, enableCursor)
      ensures old(window).None? ==> core.log == old(core.log)
      ensures old(window).Some? ==>
        core.log == old(core.log) + ([Told(old(window).value, Detach), Released(old(window).value)] +
          if config.cursorAutomation then [Cursor(enableCursor)] else [])
    {
      hide Balanced, Core.Valid;
      if window.None? {
        return;
      }
      WindowOut(core.live, context, window.value, primaryContext, layers, handedOut, inFlight);
      core.Unlisten(window.value);
      core.Release(window.value);
      window := None;
      focused := false;
      if config.cursorAutomation {
        core.EnableCursor(enableCursor);
      }
    }

    /** Called while the listener is attached, that is while there is a primary window. */
    method FocusListener(event: WindowEvent)
      requires Valid() && window.Some? && core.listener == window
      modifies this`window, this`focused, core
      ensures Valid()
      ensures event == DESTROYED ==> window.None? && !focused
      ensures event == DESTROYED ==>
        core.log == old(core.log) + [Released(old(window).value), Dropped(old(window).value)]
      ensures event != DESTROYED ==> window == old(window) && core.log == old(core.log)
      ensures event == GOTFOCUS ==> focused
      ensures event == LOSTFOCUS ==> !focused
      ensures event == OTHER_EVENT ==> focused == old(focused)
    {
      hide Balanced, Core.Valid;
      match event
      case DESTROYED =>
        WindowOut(core.live, context, window.value, primaryContext, layers, handedOut, None);
        core.Release(window.value);
        core.DropListener(window.value);  // on return of RS_REMOVE
        window := None;
        focused := false;
      case GOTFOCUS =>
        focused := true;
      case LOSTFOCUS =>
        focused := false;
      case OTHER_EVENT =>
    }

    method SetAppFocus(focus: bool)
      requires Valid()
      modifies this`appFocus
      ensures Valid() && appFocus == focus
    {
      hide Balanced, Core.Valid;
      appFocus := focus;
    }

    // ---- Input filters ----

    method InputFilterLocal(e: InputFilter.Event) returns (drop: bool)
      requires Valid()
      modifies core
      ensures Valid() && drop == InputFilter.LocalDrops(focused, appFocus, e)
      ensures drop <==> e.Input? && !focused && !appFocus
      ensures drop || e.Foreign? || !config.cursorAutomation || window.None? || e.kind == InputFilter.OTHER_INPUT
        ==> core.log == old(core.log)
      ensures !drop && e.Input? && config.cursorAutomation && window.Some? ==>
        (e.kind.BUTTONPRESS? ==> core.log == old(core.log) + [Cursor(false)]) &&
        (e.kind.KEYPRESS? ==> core.log == old(core.log) + [Cursor(e.kind.showsCursor)])
    {
      hide Balanced, Core.Valid;
      if e.Input? {
        if !focused && !appFocus {
          return true;
        }
        if config.cursorAutomation {
          match e.kind {
            case BUTTONPRESS =>
              if window.Some? {
                core.EnableCursor(false);
              }
            case KEYPRESS(shows) =>
              if window.Some? {
                core.EnableCursor(shows);
              }
            case OTHER_INPUT =>
          }
        }
      }
      return false;
    }

    method InputFilterGlobal(e0: InputFilter.Event) returns (drop: bool, e: InputFilter.Event)
      requires Valid()
      ensures !drop && e == InputFilter.GlobalResult(focused, appFocus, e0)
      // only the mark is set, and only without focus; everything else about the event stays
      ensures e0.Foreign? || focused || appFocus ==> e == e0
      ensures e0.Input? && !focused && !appFocus ==> e.Input? && e.isGlobal && e.kind == e0.kind
    {
      e := e0;
      if e.Input? {
        if !focused && !appFocus {
          e := e.(isGlobal := true);
        }
      }
      return false, e;
    }

    // ---- Cooperative level ----

    /** The core hands out a context at this place of the log, and activates it. */
    predicate GrantsContext(n: nat) {
      core.answers(n) && core.answers(n + 1)
    }

    /** Takes and activates a context for the fullscreen primary; a failure leaves nothing behind. */
    method TakePrimaryContext() returns (c: Option<Ref>)
      requires Accounts(None)
      modifies core
      ensures Accounts(c)
      ensures c.None? ==> core.live == old(core.live)
      ensures c.Some? ==> core.log == old(core.log) + [Acquired(c.value, None), Used(c.value, Activate, true)]
      ensures c.Some? <==> GrantsContext(|old(core.log)|)
    {
      hide Balanced, Core.Valid;
      c := core.Acquire(CONTEXT, None);
      if c.None? {
        return;
      }
      FlightIn(old(core.live), context, window, primaryContext, layers, handedOut, c.value);
      var ok := core.Ask(c.value, Activate);
      if !ok {
        core.Release(c.value);
        c := None;
      }
    }

    /** From a window to a context of its own, if the core lets it. */
    method EnterFullscreen() returns (ok: bool)
      requires Accounts(None) && primaryContext.None?
      modifies this`window, this`primaryContext, this`focused, core
      ensures Accounts(None)
      ensures !ok ==> window == old(window) && primaryContext.None? && focused == old(focused)
      ensures !ok ==> core.live == old(core.live)
      ensures ok ==> window.None? && primaryContext.Some?
      ensures ok ==>
        var c := primaryContext.value;
        core.log == old(core.log) + [Acquired(c, None), Used(c, Activate, true)] + DropCalls(old(window), config, true)
      ensures ok <==> GrantsContext(|old(core.log)|)
    {
      hide Balanced, Core.Valid, DropCalls;
      var c := TakePrimaryContext();
      if c.None? {
        return false;
      }
      DropWindow(true, c);
      PrimaryIn(core.live, context, None, c.value, layers, handedOut);
      primaryContext := c;
      return true;
    }

    method LeaveFullscreen()
      requires Accounts(None) && primaryContext.Some?
      modifies this`primaryContext, core
      ensures Accounts(None) && primaryContext.None?
      ensures core.log == old(core.log) + [Released(old(primaryContext).value)]
    {
      hide Balanced, Core.Valid;
      PrimaryOut(core.live, context, window, primaryContext.value, layers, handedOut);
      core.Release(primaryContext.value);
      primaryContext := None;
    }

    method SetCooperativeLevel(newLevel: Level) returns (ret: Result)
      requires Valid()
      modifies this`level, this`window, this`primaryContext, this`focused, core
      ensures Valid()
      ensures ret == OK ==> level == newLevel
      // a failed call changes nothing and keeps no reference
      ensures ret != OK ==> level == old(level) && window == old(window) && primaryContext == old(primaryContext)
      ensures ret != OK ==> focused == old(focused) && core.live == old(core.live)
      ensures ret == INVARG <==> newLevel.UNKNOWN_LEVEL?
      ensures ret == ACCESSDENIED <==>
        newLevel != old(level) && (newLevel == FULLSCREEN || newLevel == EXCLUSIVE) &&
        (config.primaryId || config.forceWindowed || config.forceDesktop)
      ensures ret == CORE_FAILURE <==>
        old(level) == NORMAL && (newLevel == FULLSCREEN || newLevel == EXCLUSIVE) && ret != ACCESSDENIED &&
        !(core.answers(|old(core.log)|) && core.answers(|old(core.log)| + 1))
      ensures ret != UNSUPPORTED
      // what the core was asked for
      ensures newLevel == old(level) ==> ret == OK && core.log == old(core.log) && focused == old(focused)
      ensures ret == OK && newLevel == NORMAL && old(level) != NORMAL ==>
        !focused && core.log == old(core.log) + [Released(old(primaryContext).value)]
      ensures ret == OK && newLevel != NORMAL && old(level) != NORMAL ==>
        primaryContext == old(primaryContext) && core.log == old(core.log)
      ensures ret == OK && newLevel != NORMAL && old(level) == NORMAL ==>
        var c := primaryContext.value;
        core.log == old(core.log) + [Acquired(c, None), Used(c, Activate, true)] + DropCalls(old(window), config, true)
    {
      hide Balanced, Core.Valid, DropCalls;
      if newLevel == level {
        return OK;
      }
      match newLevel {
        case NORMAL =>
          focused := false;
          LeaveFullscreen();
        case FULLSCREEN | EXCLUSIVE =>
          if config.primaryId {
            return ACCESSDENIED;
          }
          if config.forceWindowed || config.forceDesktop {
            return ACCESSDENIED;
          }
          if level == NORMAL {
            var ok := EnterFullscreen();
            if !ok {
              return CORE_FAILURE;
            }
          }
          focused := true;
        case UNKNOWN_LEVEL(_) =>
          return INVARG;
      }
      level := newLevel;
      return OK;
    }

    // ---- Video mode ----

    method SetVideoMode(newWidth: int, newHeight: int, bpp: int) returns (ret: Result)
      requires Valid()
      modifies this`width, this`height, this`format, core
      ensures Valid() && core.live == old(core.live)
      ensures ret == INVARG <==> newWidth < 1 || newHeight < 1 || bpp < 1 || config.formatForDepth(bpp) == 0
      ensures ret == OK || ret == INVARG || ret == CORE_FAILURE
      ensures ret != OK ==> width == old(width) && height == old(height) && format == old(format)
      ensures ret == OK ==> width == newWidth && height == newHeight && format == config.formatForDepth(bpp)
      ensures
        var target := if level == NORMAL then window else primaryContext;
        core.log == old(core.log) +
          if ret == INVARG || target.None? then []
          else [Used(target.value, SetSize(newWidth, newHeight, config.formatForDepth(bpp)), ret == OK)]
      ensures
        var target := if level == NORMAL then window else primaryContext;
        ret != INVARG ==> (ret == CORE_FAILURE <==> target.Some? && !core.answers(|old(core.log)|))
    {
      hide Balanced, Core.Valid;
      if newWidth < 1 || newHeight < 1 || bpp < 1 {
        return INVARG;
      }
      var f := config.formatForDepth(bpp);
      if f == 0 {
        return INVARG;
      }
      AllOut(core.live, context, window, primaryContext, layers, handedOut);
      match level {
        case NORMAL =>
          if window.Some? {
            var ok := core.Ask(window.value, SetSize(newWidth, newHeight, f));
            if !ok {
              return CORE_FAILURE;
            }
          }
        case FULLSCREEN | EXCLUSIVE =>
          var ok := core.Ask(primaryContext.value, SetSize(newWidth, newHeight, f));
          if !ok {
            return CORE_FAILURE;
          }
        case UNKNOWN_LEVEL(_) =>
      }
      width, height, format := newWidth, newHeight, f;
      return OK;
    }

    // ---- Surfaces ----

    /** The contexts the session holds are out, also while it is still being set up. */
    ghost predicate ContextsHeld()
      reads this, core
    {
      && core.Valid() && context.Some? && context.value in core.live
      && (primaryContext.Some? ==> primaryContext.value in core.live)
    }

    /** A fullscreen primary is like its own context, everything else like the shared one. */
    method CurrentLayout() returns (layout: Layout)
      requires ContextsHeld()
      modifies core
      ensures core.Valid() && core.listener == old(core.listener) && core.live == old(core.live)
      ensures layout == core.layouts(|old(core.log)|)
      ensures core.log == old(core.log) +
        [Told(if primaryContext.Some? then primaryContext.value else context.value, GetConfiguration)]
      ensures core.fatal == old(core.fatal)
    {
      hide Core.Valid;
      if primaryContext.Some? {
        layout := core.GetLayout(primaryContext.value);
      } else {
        layout := core.GetLayout(context.value);
      }
    }

    function Asked(desc: SurfaceDescription): set<Cap> {
      AskedOf(desc, config)
    }

    function CheckedFormat(desc: SurfaceDescription, current: Layout): int {
      if desc.format.Some? then desc.format.value
      else if desc.font then config.fontFormat
      else current.format
    }

    /** The checks every description has to pass. */
    predicate Acceptable(desc: SurfaceDescription, current: Layout) {
      && (desc.width.Some? ==> 1 <= desc.width.value <= MAX_SIZE)
      && (desc.height.Some? ==> 1 <= desc.height.value <= MAX_SIZE)
      && (desc.palette.Some? ==> desc.palette.value.given && desc.palette.value.size != 0)
      && (desc.colorspace.Some? ==> config.compatible(desc.colorspace.value, CheckedFormat(desc, current)))
      && config.supported(CheckedFormat(desc, current))
    }

    /** A plain surface has the size it is asked to have. */
    function PlainLayout(desc: SurfaceDescription, current: Layout): Layout {
      Layout(if desc.width.Some? then desc.width.value else DEFAULT_SIZE,
             if desc.height.Some? then desc.height.value else DEFAULT_SIZE,
             CheckedFormat(desc, current))
    }

    /** A primary looks to its description first, then to the video mode, the configuration and the layer. */
    function PrimaryLayout(desc: SurfaceDescription, current: Layout): Layout
      reads this`width, this`height, this`format
    {
      Layout(FirstGiven(desc.width, width, config.mode.width, current.width),
             FirstGiven(desc.height, height, config.mode.height, current.height),
             FirstGiven(desc.format, format, config.mode.format, current.format))
    }

    method InitPalette(surface: Ref, desc: SurfaceDescription)
      requires core.Valid() && surface in core.live
      modifies core
      ensures core.Valid() && core.listener == old(core.listener) && core.live == old(core.live)
      ensures core.log == old(core.log) + PaletteCalls(surface, desc, |old(core.log)|, core.answers)
      ensures core.fatal == old(core.fatal)
      ensures desc.palette.None? ==> core.log == old(core.log)
      ensures
        var palette := Ref(PALETTE, |old(core.log)|);
        var calls :=
          if core.answers(|old(core.log)|)
          then [Acquired(palette, Some(surface)), Told(palette, SetEntries), Released(palette)]
          else [Refused(PALETTE, Some(surface))];
        desc.palette.Some? ==> core.log == old(core.log) + calls
    {
      hide Core.Valid;
      if desc.palette.None? {
        return;
      }
      var palette := core.Acquire(PALETTE, Some(surface));
      if palette.None? {
        return;
      }
      core.Tell(palette.value, SetEntries);
      core.Release(palette.value);
    }

    /** The surface of an interface that exists already gets its palette and is given back. */
    method SetLate(s: Ref, desc: SurfaceDescription, ghost iface: Ref, ghost rest: multiset<Ref>)
      requires core.Valid() && core.live == rest + multiset{s} && iface.id < |core.log|
      modifies core
      ensures core.Valid() && core.listener == old(core.listener) && core.live == rest
      ensures core.log == old(core.log) + PaletteCalls(s, desc, |old(core.log)|, core.answers) + [Released(s)]
      ensures PaletteOrder(core.log, |old(core.log)|, iface, desc, false)
    {
      hide Core.Valid, PaletteCalls, PaletteOrder;
      Returned(rest, s);
      InitPalette(s, desc);
      core.Release(s);
      PaletteOrderIs(old(core.log), s, desc, core.answers, [Released(s)], iface);
    }

    /** An interface is made of the surface before its palette is set. */
    method WrapEarly(s: Ref, desc: SurfaceDescription, ghost rest: multiset<Ref>) returns (iface: Option<Ref>)
      requires core.Valid() && core.live == rest + multiset{s}
      modifies core
      ensures core.Valid() && core.listener == old(core.listener)
      ensures core.live == rest + One(iface) && IsInterface(iface)
      ensures iface.Some? <==> core.answers(|old(core.log)|)
      ensures iface.Some? ==>
        core.log == old(core.log) + [Acquired(iface.value, Some(s), Spec(None, {PRIMARY}))] +
          PaletteCalls(s, desc, |old(core.log)| + 1, core.answers) + [Released(s)]
      ensures iface.Some? ==> Carries(core.log, iface.value, {PRIMARY})
      ensures iface.Some? ==> PaletteOrder(core.log, |old(core.log)|, iface.value, desc, false)
    {
      hide Core.Valid, PaletteCalls, PaletteOrder;
      Returned(rest, s);
      iface := core.Acquire(INTERFACE, Some(s), Spec(None, {PRIMARY}));
      if iface.None? {
        core.Release(s);
        return;
      }
      Swap(rest, multiset{s}, multiset{iface.value});
      SetLate(s, desc, iface.value, rest + multiset{iface.value});
      PaletteOrderSince(core.log, |old(core.log)|, |old(core.log)| + 1, iface.value, desc, false);
    }

    /** The surface of the configured id serves as primary. */
    method PrimaryById(desc: SurfaceDescription) returns (iface: Option<Ref>)
      requires core.Valid()
      modifies core
      ensures core.Valid() && core.listener == old(core.listener)
      ensures core.live == old(core.live) + One(iface) && IsInterface(iface)
      ensures iface.Some? <==> core.answers(|old(core.log)|) && core.answers(|old(core.log)| + 1)
      ensures iface.Some? ==>
        var n := |old(core.log)|;
        var s := Ref(SURFACE, n);
        core.log == old(core.log) + [Acquired(s, None)] + [Acquired(iface.value, Some(s), Spec(None, {PRIMARY}))] +
          PaletteCalls(s, desc, n + 2, core.answers) + [Released(s)]
      ensures iface.Some? ==> Carries(core.log, iface.value, {PRIMARY})
      ensures iface.Some? ==> PaletteOrder(core.log, |old(core.log)|, iface.value, desc, false)
    {
      hide Core.Valid, PaletteCalls, PaletteOrder, Carries;
      iface := None;
      var surface := core.Acquire(SURFACE, None);
      if surface.None? {
        return;
      }
      iface := WrapEarly(surface.value, desc, old(core.live));
      if iface.Some? {
        PaletteOrderSince(core.log, |old(core.log)|, |old(core.log)| + 1, iface.value, desc, false);
      }
    }

    /** The surface is wrapped for the application, and whatever comes of it, given back. */
    method HandOut(s: Ref, caps: set<Cap>, desktop: bool, ghost rest: multiset<Ref>) returns (iface: Option<Ref>)
      requires core.Valid() && core.live == rest + multiset{s}
      modifies core
      ensures core.Valid() && core.listener == old(core.listener) && core.fatal == old(core.fatal)
      ensures core.live == rest + One(iface) && IsInterface(iface)
      ensures iface.Some? <==> core.answers(|old(core.log)|)
      ensures iface.Some? ==> core.log == old(core.log) + HandOutCalls(iface.value, s, caps, desktop)
      ensures iface.Some? ==> Carries(core.log, iface.value, caps)
      ensures iface.Some? ==> |old(core.log)| <= iface.value.id
      ensures old(core.log) <= core.log
    {
      hide Core.Valid, HandOutCalls, Carries;
      Returned(rest, s);
      iface := core.Acquire(INTERFACE, Some(s), Spec(None, caps));
      if iface.None? {
        core.Release(s);
        return;
      }
      Swap(rest, multiset{s}, multiset{iface.value});
      Returned(rest + multiset{iface.value}, s);
      if desktop {
        core.Tell(s, BecomeBackground);
      }
      core.Release(s);
      HandedOut(old(core.log), iface.value, s, caps, desktop);
    }

    /** A surface with its palette is handed out. */
    method WrapSurface(s: Ref, caps: set<Cap>, desc: SurfaceDescription, desktop: bool, ghost rest: multiset<Ref>)
      returns (iface: Option<Ref>)
      requires core.Valid() && core.live == rest + multiset{s}
      modifies core
      ensures core.Valid() && core.listener == old(core.listener) && core.fatal == old(core.fatal)
      ensures core.live == rest + One(iface) && IsInterface(iface)
      ensures iface.Some? <==> WrapServed(desc, |old(core.log)|, core.answers)
      ensures iface.Some? ==>
        core.log == old(core.log) + WrapCalls(iface.value, s, caps, desc, desktop, |old(core.log)|, core.answers)
      ensures iface.Some? ==> Carries(core.log, iface.value, caps)
      ensures iface.Some? ==> PaletteOrder(core.log, |old(core.log)|, iface.value, desc, true)
      ensures old(core.log) <= core.log
    {
      hide Core.Valid, PaletteSteps, PaletteCalls, HandOutCalls, Carries, PaletteOrder, NoPalette;
      Returned(rest, s);
      InitPalette(s, desc);
      ghost var n := |old(core.log)|;
      assert |core.log| == n + PaletteSteps(desc, n, core.answers);
      iface := HandOut(s, caps, desktop, rest);
      if iface.Some? {
        var tail := HandOutCalls(iface.value, s, caps, desktop);
        AssociateCalls(old(core.log), PaletteCalls(s, desc, n, core.answers), tail);
        HandOutSetsNoPalette(iface.value, s, caps, desktop);
        PaletteOrderIs(old(core.log), s, desc, core.answers, tail, iface.value);
      }
    }

    /** A surface of its own; as desktop primary it also becomes the background. */
    method PlainSurface(desc: SurfaceDescription, spec: Spec, desktop: bool) returns (iface: Option<Ref>)
      requires core.Valid()
      modifies core
      ensures core.Valid() && core.listener == old(core.listener) && core.fatal == old(core.fatal)
      ensures core.live == old(core.live) + One(iface) && IsInterface(iface)
      ensures iface.Some? <==> PlainServed(desc, |old(core.log)|, core.answers)
      ensures iface.Some? ==>
        var n := |old(core.log)|;
        var s := Ref(SURFACE, n);
        core.log == old(core.log) + [Acquired(s, None, spec)] +
          WrapCalls(iface.value, s, spec.caps, desc, desktop, n + 1, core.answers)
      ensures iface.Some? ==> Carries(core.log, iface.value, spec.caps)
      ensures iface.Some? && spec.layout.Some? ==> AsksAt(core.log, |old(core.log)|, spec.layout.value)
      ensures iface.Some? ==> PaletteOrder(core.log, |old(core.log)|, iface.value, desc, true)
      ensures old(core.log) <= core.log
    {
      hide Core.Valid, WrapServed, WrapCalls, Carries, PaletteOrder;
      iface := None;
      var surface := core.Acquire(SURFACE, None, spec);
      if surface.None? {
        return;
      }
      iface := WrapSurface(surface.value, spec.caps, desc, desktop, old(core.live));
      if iface.Some? {
        PaletteOrderSince(core.log, |old(core.log)|, |old(core.log)| + 1, iface.value, desc, true);
      }
    }

    /** A new window takes the place of the old one. */
    method TakeWindow(spec: Spec) returns (ok: bool)
      requires Valid() && level == NORMAL
      modifies this`window, this`focused, core
      ensures Valid()
      ensures !ok ==> window == old(window) && focused == old(focused)
      ensures ok ==> window == Some(Ref(WINDOW, |old(core.log)|)) && !focused && window.value in core.live
      ensures ok ==>
        core.log == old(core.log) + [Acquired(window.value, context, spec)] + DropCalls(old(window), config, true) +
          [Told(window.value, Attach)]
      ensures ok <==> core.answers(|old(core.log)|)
    {
      hide Balanced, Core.Valid, DropCalls;
      AllOut(core.live, context, window, primaryContext, layers, handedOut);
      var w := core.Acquire(WINDOW, context, spec);
      if w.None? {
        return false;
      }
      FlightIn(old(core.live), context, window, primaryContext, layers, handedOut, w.value);
      DropWindow(true, w);
      WindowIn(core.live, context, w.value, primaryContext, layers, handedOut);
      window := w;
      WindowOut(core.live, context, w.value, primaryContext, layers, handedOut, None);
      core.Listen(w.value);
      return true;
    }

    /** Options, focus and size of a new primary window. */
    method PrepareWindow(w: Ref)
      requires core.Valid() && w in core.live
      modifies core
      ensures core.Valid() && core.listener == old(core.listener) && core.live == old(core.live)
      ensures core.log == old(core.log) + WindowCalls(w, config)
      ensures NoPalette(core.log, |old(core.log)|, |core.log|)
      ensures core.log == old(core.log) + ([Told(w, ChangeOptions), Told(w, AllowFocus)] +
        if config.scaledWidth != 0 && config.scaledHeight != 0
        then [Told(w, Resize(config.scaledWidth, config.scaledHeight))] else [])
    {
      hide Core.Valid;
      core.Tell(w, ChangeOptions);
      core.Tell(w, AllowFocus);
      if config.Scaled() {
        core.Tell(w, Resize(config.scaledWidth, config.scaledHeight));
      }
    }

    /** A new primary window gets its palette and is handed out. */
    method WrapWindow(w: Ref, desc: SurfaceDescription, caps: set<Cap>) returns (iface: Option<Ref>)
      requires core.Valid() && w in core.live
      modifies core
      ensures core.Valid() && core.listener == old(core.listener)
      ensures core.live == old(core.live) + One(iface) && IsInterface(iface)
      ensures iface.Some? <==> WrapServed(desc, |old(core.log)| + |WindowCalls(w, config)|, core.answers)
      ensures iface.Some? ==>
        var n := |old(core.log) + WindowCalls(w, config)|;
        core.log == old(core.log) + WindowCalls(w, config) + PaletteCalls(w, desc, n, core.answers) +
          [Acquired(iface.value, Some(w), Spec(None, caps))]
      ensures iface.Some? ==> Carries(core.log, iface.value, caps)
      ensures iface.Some? ==> PaletteOrder(core.log, |old(core.log)|, iface.value, desc, true)
    {
      hide Core.Valid, WindowCalls, PaletteCalls, PaletteSteps, PaletteOrder, PaletteIn, NoPalette;
      PrepareWindow(w);
      ghost var log := core.log;
      InitPalette(w, desc);
      ghost var ready := core.log;
      iface := core.Acquire(INTERFACE, Some(w), Spec(None, caps));
      if iface.Some? {
        PaletteInIs(log, w, desc, core.answers);
        NoPaletteAppend(log, PaletteCalls(w, desc, |log|, core.answers), |old(core.log)|);
        PaletteOrderAtEnd(ready, |old(core.log)|, |log|, iface.value, Some(w), Spec(None, caps), desc);
      }
    }

    /** The primary in windowed mode. */
    method WindowPrimary(desc: SurfaceDescription, layout: Layout) returns (iface: Option<Ref>)
      requires Valid() && MakesWindow(desc)
      modifies this`window, this`focused, core
      ensures Accounts(iface) && Settled() && IsInterface(iface)
      ensures iface.Some? <==> WindowServed(desc, config, old(window), |old(core.log)|, core.answers)
      ensures
        || (window == old(window) && focused == old(focused))
        || (window == Some(Ref(WINDOW, |old(core.log)|)) && !focused)
      ensures iface.Some? ==> window == Some(Ref(WINDOW, |old(core.log)|)) && !focused
      ensures iface.Some? ==>
        WindowLog(old(core.log), core.log, iface.value, desc, layout, config, old(window), context, core.answers)
      ensures iface.Some? ==> AsksAt(core.log, |old(core.log)|, layout) && Granting(core.log, iface.value, desc)
      ensures iface.Some? ==> PaletteOrder(core.log, |old(core.log)|, iface.value, desc, true)
      ensures iface.Some? ==> old(core.log) <= core.log
    {
      hide Balanced, Core.Valid, DropCalls, WindowCalls, PaletteCalls, PaletteOrder, WrapServed;
      iface := None;
      var caps := PolicyCaps(Asked(desc), config.windowPolicy);
      var ok := TakeWindow(Spec(Some(layout), caps));
      if !ok {
        return;
      }
      ghost var live, log := core.live, core.log;
      iface := WrapWindow(window.value, desc, caps);
      FlightOf(live, context, window, primaryContext, layers, handedOut, iface);
      if iface.Some? {
        DropSetsNoPalette(old(core.log), window.value, context, Spec(Some(layout), caps), old(window), config,
                          core.log);
        PaletteOrderSince(core.log, |old(core.log)|, |log|, iface.value, desc, true);
      }
    }

    /** The buffer mode a fullscreen primary asks for first. */
    method ChooseMode(caps: set<Cap>) returns (ok: bool, mode: BufferMode)
      ensures ok <==> !(TRIPLE_BUFFER in caps && SYSTEMONLY in caps)
      ensures ok ==> mode == Ladder(caps)[0]
    {
      if TRIPLE_BUFFER in caps {
        return SYSTEMONLY !in caps, TRIPLE;
      }
      if DOUBLE_BUFFER in caps {
        if SYSTEMONLY in caps {
          return true, BACKSYSTEM;
        }
        return true, BACKVIDEO;
      }
      return true, FRONTONLY;
    }

    /** Asks for one configuration of the layer, the n-th step of a ladder whose earlier steps were refused. */
    method TryMode(c: Ref, spec: Spec, mode: BufferMode, ghost ladder: seq<BufferMode>, ghost n: nat,
                   ghost log: seq<Call>)
      returns (ok: bool)
      requires core.Valid() && c in core.live && n < |ladder| && mode == ladder[n]
      requires core.log == log + Refusals(c, spec, ladder[..n]) && AllNo(core.answers, |log|, n)
      modifies core
      ensures core.Valid() && core.listener == old(core.listener) && core.live == old(core.live)
      ensures ok ==> core.log == log + Attempts(c, spec, ladder, n) && FirstYes(core.answers, |log|, n)
      ensures !ok ==> core.log == log + Refusals(c, spec, ladder[..n + 1]) && AllNo(core.answers, |log|, n + 1)
    {
      hide Core.Valid, Attempts, Refusals;
      NextStep(log, c, spec, ladder, n);
      ok := core.Ask(c, SetBufferMode(mode, spec));
    }

    /** Walks down the ladder of buffer modes until the core accepts one. */
    method ClimbDown(c: Ref, spec: Spec, caps: set<Cap>, first: BufferMode)
      returns (ok: bool, mode: BufferMode, ghost n: nat)
      requires core.Valid() && c in core.live && first == Ladder(caps)[0]
      modifies core
      ensures core.Valid() && core.listener == old(core.listener) && core.live == old(core.live)
      ensures ok ==> n < |Ladder(caps)| && mode == Ladder(caps)[n]
      ensures ok ==>
        core.log == old(core.log) + Attempts(c, spec, Ladder(caps), n) && FirstYes(core.answers, |old(core.log)|, n)
      ensures !ok ==> core.log == old(core.log) + Refusals(c, spec, Ladder(caps))
      ensures !ok ==> AllNo(core.answers, |old(core.log)|, |Ladder(caps)|)
    {
      ghost var ladder, log := Ladder(caps), core.log;
      mode := first;
      assert log == log + Refusals(c, spec, ladder[..0]);
      hide Core.Valid, Attempts, Refusals, FirstYes;
      assert ladder[..|ladder|] == ladder;
      n := 0;
      ok := TryMode(c, spec, mode, ladder, n, log);
      if ok || SYSTEMONLY in caps || VIDEOONLY in caps {
        return;
      }
      if mode == TRIPLE {
        mode, n := BACKVIDEO, 1;
        ok := TryMode(c, spec, mode, ladder, n, log);
        if !ok {
          mode, n := BACKSYSTEM, 2;
          ok := TryMode(c, spec, mode, ladder, n, log);
        }
      } else if mode == BACKVIDEO {
        mode, n := BACKSYSTEM, 1;
        ok := TryMode(c, spec, mode, ladder, n, log);
      }
    }

    /** Configures the layer for a fullscreen primary. */
    method ConfigureFullscreen(c: Ref, caps: set<Cap>, layout: Layout)
      returns (ret: Result, mode: BufferMode, granted: set<Cap>, ghost n: nat,
               ghost asked: seq<BufferMode>)
      requires core.Valid() && c in core.live
      modifies core
      ensures core.Valid() && core.listener == old(core.listener) && core.live == old(core.live)
      ensures ret == UNSUPPORTED <==> TRIPLE_BUFFER in caps && SYSTEMONLY in caps
      ensures ret == UNSUPPORTED ==> core.log == old(core.log)
      ensures ret == OK || ret == UNSUPPORTED || ret == CORE_FAILURE
      // one request after the other, each answered by the core, until it says yes to one
      ensures ret != UNSUPPORTED ==>
        var spec := Spec(Some(layout), caps * {PREMULTIPLIED, GL, STEREO});
        asked != [] && InTurn(old(core.log), core.log, c, spec, asked, ret == OK, core.answers)
      // triple, double or single buffering is asked for first, and with SYSTEMONLY or VIDEOONLY nothing else
      ensures ret != UNSUPPORTED && TRIPLE_BUFFER in caps ==> asked[0] == TRIPLE
      ensures ret != UNSUPPORTED && TRIPLE_BUFFER !in caps && DOUBLE_BUFFER in caps ==>
        asked[0] == if SYSTEMONLY in caps then BACKSYSTEM else BACKVIDEO
      ensures ret != UNSUPPORTED && TRIPLE_BUFFER !in caps && DOUBLE_BUFFER !in caps ==> asked[0] == FRONTONLY
      ensures ret != UNSUPPORTED && (SYSTEMONLY in caps || VIDEOONLY in caps) ==> |asked| == 1
      // otherwise BACKVIDEO comes after TRIPLE, BACKSYSTEM after BACKVIDEO, and then there is nothing left to try
      ensures |asked| >= 2 ==>
        (asked[0] == TRIPLE && asked[1] == BACKVIDEO) || (asked[0] == BACKVIDEO && asked[1] == BACKSYSTEM)
      ensures |asked| >= 3 ==> |asked| == 3 && asked[1] == BACKVIDEO && asked[2] == BACKSYSTEM
      ensures ret == CORE_FAILURE && SYSTEMONLY !in caps && VIDEOONLY !in caps ==>
        asked[|asked| - 1] == BACKSYSTEM || asked[|asked| - 1] == FRONTONLY
      ensures ret == OK ==> mode == asked[|asked| - 1]
      ensures ret == OK ==>
        granted == if !(DOUBLE_BUFFER in caps && TRIPLE_BUFFER in caps) then caps
                   else if mode == TRIPLE then caps - {DOUBLE_BUFFER}
                   else caps - {TRIPLE_BUFFER}
      // the same as a walk down the ladder
      ensures ret == OK ==> n < |Ladder(caps)| && mode == Ladder(caps)[n] && granted == Granted(caps, mode)
      ensures ret == OK ==> FirstYes(core.answers, |old(core.log)|, n)
      ensures ret == OK ==> core.log == old(core.log) + Attempts(c, LayerSpec(layout, caps), Ladder(caps), n)
      ensures ret == CORE_FAILURE ==> AllNo(core.answers, |old(core.log)|, |Ladder(caps)|)
      ensures ret == CORE_FAILURE ==> core.log == old(core.log) + Refusals(c, LayerSpec(layout, caps), Ladder(caps))
    {
      hide Core.Valid, Attempts, Refusals, FirstYes, AllNo, Ladder, InTurn;
      granted, n, asked := caps, 0, [];
      var ok;
      ok, mode := ChooseMode(caps);
      if !ok {
        ret := UNSUPPORTED;
        return;
      }
      ok, mode, n := ClimbDown(c, LayerSpec(layout, caps), caps, mode);
      ghost var steps := if ok then n else |Ladder(caps)|;
      asked := Descent(old(core.log), core.log, c, LayerSpec(layout, caps), caps, steps, ok, core.answers);
      if !ok {
        ret := CORE_FAILURE;
        return;
      }
      if DOUBLE_BUFFER in caps && TRIPLE_BUFFER in caps {
        if mode == TRIPLE {
          granted := granted - {DOUBLE_BUFFER};
        } else {
          granted := granted - {TRIPLE_BUFFER};
        }
      }
      ret := OK;
    }

    /** The region is shown if it has no back buffer in video memory, and wrapped for the application. */
    method ShowRegion(region: Ref, s: Ref, mode: BufferMode, caps: set<Cap>,
                      ghost rest: multiset<Ref>)
      returns (iface: Option<Ref>)
      requires core.Valid() && core.live == rest + multiset{region} + multiset{s}
      modifies core
      ensures core.Valid() && core.listener == old(core.listener)
      ensures core.live == rest + One(iface) && IsInterface(iface)
      ensures iface.Some? <==> core.answers(|old(core.log)| + if Shows(mode) then 1 else 0)
      ensures iface.Some? ==> core.log == old(core.log) + ShowCalls(iface.value, region, s, mode, caps)
      ensures iface.Some? ==> Carries(core.log, iface.value, caps)
      ensures iface.Some? ==> |old(core.log)| <= iface.value.id
      ensures mode == FRONTONLY || mode == BACKSYSTEM ==>
        |old(core.log)| < |core.log| && core.log[|old(core.log)|] == Told(region, Show)
      ensures (mode == BACKVIDEO || mode == TRIPLE) && iface.Some? ==> iface.value.id == |old(core.log)|
    {
      hide Core.Valid, ShowCalls, Carries;
      if mode != BACKVIDEO && mode != TRIPLE {
        core.Tell(region, Show);
      }
      assert core.log == old(core.log) + if Shows(mode) then [Told(region, Show)] else [];
      UnwindTwo(rest, region, s);
      iface := core.Acquire(INTERFACE, Some(region), Spec(None, caps));
      if iface.Some? {
        UnwindTwoUnder(rest, region, s, iface.value);
      }
      core.Release(s);
      core.Release(region);
      if iface.Some? {
        Shown(old(core.log), iface.value, region, s, mode, caps);
      }
    }

    method WrapRegion(region: Ref, s: Ref, mode: BufferMode, desc: SurfaceDescription, caps: set<Cap>,
                      ghost rest: multiset<Ref>)
     
      returns (iface: Option<Ref>)
      requires core.Valid() && core.live == rest + multiset{region} + multiset{s}
      modifies core
      ensures core.Valid() && core.listener == old(core.listener)
      ensures core.live == rest + One(iface) && IsInterface(iface)
      ensures iface.Some? <==> ShowServed(desc, mode, |old(core.log)|, core.answers)
      ensures iface.Some? ==>
        core.log == old(core.log) + RegionCalls(iface.value, region, s, mode, desc, caps, |old(core.log)|, core.answers)
      ensures iface.Some? ==> Carries(core.log, iface.value, caps)
      ensures iface.Some? ==> PaletteOrder(core.log, |old(core.log)|, iface.value, desc, true)
    {
      hide Core.Valid, PaletteSteps, PaletteCalls, ShowCalls, Carries, PaletteOrder, NoPalette;
      InitPalette(s, desc);
      ghost var n := |old(core.log)|;
      assert |core.log| == n + PaletteSteps(desc, n, core.answers);
      iface := ShowRegion(region, s, mode, caps, rest);
      if iface.Some? {
        var tail := ShowCalls(iface.value, region, s, mode, caps);
        AssociateCalls(old(core.log), PaletteCalls(s, desc, n, core.answers), tail);
        ShowSetsNoPalette(iface.value, region, s, mode, caps);
        PaletteOrderIs(old(core.log), s, desc, core.answers, tail, iface.value);
      }
    }

    /** A configured layer is turned into a primary. */
    method LayerPrimary(c: Ref, mode: BufferMode, desc: SurfaceDescription, caps: set<Cap>) returns (iface: Option<Ref>)
      requires core.Valid() && c in core.live
      modifies core
      ensures core.Valid() && core.listener == old(core.listener)
      ensures core.live == old(core.live) + One(iface) && IsInterface(iface)
      ensures iface.Some? <==> LayerServed(desc, mode, |old(core.log)|, core.answers)
      ensures iface.Some? ==> LayerLog(old(core.log), core.log, c, iface.value, mode, desc, caps, core.answers)
      ensures iface.Some? ==> Carries(core.log, iface.value, caps)
      ensures iface.Some? ==> PaletteOrder(core.log, |old(core.log)|, iface.value, desc, true)
    {
      hide Core.Valid, RegionCalls, ShowServed, Carries, PaletteOrder;
      iface := None;
      var region, surface := TakeRegion(c);
      if region.None? {
        return;
      }
      iface := WrapRegion(region.value, surface.value, mode, desc, caps, old(core.live));
      if iface.Some? {
        PaletteOrderSince(core.log, |old(core.log)|, |old(core.log)| + 2, iface.value, desc, true);
      }
    }

    /** The primary in fullscreen mode. */
    method FullscreenPrimary(desc: SurfaceDescription, layout: Layout) returns (ret: Result, iface: Option<Ref>)
      requires core.Valid() && primaryContext.Some? && primaryContext.value in core.live
      modifies core
      ensures core.Valid() && core.listener == old(core.listener)
      ensures core.live == old(core.live) + One(iface) && IsInterface(iface)
      ensures ret == OK <==> iface.Some?
      ensures ret == OK || ret == UNSUPPORTED || ret == CORE_FAILURE
      ensures ret == UNSUPPORTED <==> TRIPLE_BUFFER in Asked(desc) && SYSTEMONLY in Asked(desc)
      ensures ret == OK <==>
        ret != UNSUPPORTED && FullscreenServed(desc, Asked(desc), |old(core.log)|, core.answers)
      // a primary is made of the first mode that is accepted, and knows which one that is
      ensures ret == OK ==>
        exists i :: 0 <= i < |Ladder(Asked(desc))| && FirstYes(core.answers, |old(core.log)|, i) &&
          FullscreenLog(old(core.log), core.log, primaryContext.value, iface.value, desc, Asked(desc), layout, i,
                        core.answers) &&
          Carries(core.log, iface.value, Granted(Asked(desc), Ladder(Asked(desc))[i]))
      ensures ret == OK ==> AsksAt(core.log, |old(core.log)|, layout)
      ensures ret == OK ==> PaletteOrder(core.log, |old(core.log)|, iface.value, desc, true)
      ensures ret == OK ==> old(core.log) <= core.log
    {
      hide Core.Valid, InTurn, Ladder, Granted, Attempts, RegionCalls, LayerServed, LayerLog, FirstYes, PaletteOrder;
      iface := None;
      var caps := Asked(desc);
      var mode, granted;
      ghost var i, asked;
      ret, mode, granted, i, asked := ConfigureFullscreen(primaryContext.value, caps, layout);
      if ret == UNSUPPORTED {
        return;
      }
      if ret != OK {
        NeverServed(desc, caps, |old(core.log)|, core.answers);
        return;
      }
      ServedByFirst(desc, caps, |old(core.log)|, core.answers, i);
      iface := LayerPrimary(primaryContext.value, mode, desc, granted);
      ret := if iface.Some? then OK else CORE_FAILURE;
      if ret == OK {
        AttemptsSetNoPalette(old(core.log), core.log, primaryContext.value, iface.value, desc, caps, layout, i,
                             core.answers);
        PaletteOrderSince(core.log, |old(core.log)|, |old(core.log)| + i + 1, iface.value, desc, true);
        AskedFirst(old(core.log), core.log, primaryContext.value, iface.value, desc, caps, layout, i, core.answers);
      }
    }

    /** Looks at as many buffers as the surface will have. */
    method CheckBuffers(buffers: Buffers, spec: Spec, minPitch: int) returns (ok: bool)
      ensures ok <==> BuffersFit(buffers, spec.caps, minPitch)
      ensures
        var num := if DOUBLE_BUFFER in spec.caps then 2 else if TRIPLE_BUFFER in spec.caps then 3 else 1;
        ok <==> forall i :: 0 <= i < num ==> buffers[i].data && buffers[i].pitch >= minPitch
    {
      var num := 1;
      if DOUBLE_BUFFER in spec.caps {
        num := 2;
      } else if TRIPLE_BUFFER in spec.caps {
        num := 3;
      }
      for i := 0 to num
        invariant forall k :: 0 <= k < i ==> buffers[k].Fits(minPitch)
      {
        if !buffers[i].data {
          return false;
        }
        if buffers[i].pitch < minPitch {
          return false;
        }
      }
      return true;
    }

    predicate BuffersRefused(desc: SurfaceDescription, layout: Layout) {
      && desc.preallocated.Some?
      && !BuffersFit(desc.preallocated.value, OneBuffering(Asked(desc)), config.minPitch(layout.format, layout.width))
    }

    /** Everything that is not a primary. */
    method OtherSurface(desc: SurfaceDescription, layout: Layout) returns (ret: Result, iface: Option<Ref>)
      requires core.Valid()
      modifies core
      ensures core.Valid() && core.listener == old(core.listener) && core.live == old(core.live) + One(iface)
      ensures IsInterface(iface)
      ensures ret == OK <==> iface.Some?
      ensures ret == OK || ret == INVARG || ret == CORE_FAILURE
      ensures ret == INVARG <==> BuffersRefused(desc, layout)
      ensures ret == INVARG ==> core.log == old(core.log)
      ensures ret == OK ==>
        var start := if desc.preallocated.Some? then [Consulted(true)] else [];
        var n := |old(core.log) + start|;
        var s, caps := Ref(SURFACE, n), OneBuffering(Asked(desc));
        core.log == old(core.log) + start + [Acquired(s, None, Spec(Some(layout), caps))] +
          WrapCalls(iface.value, s, caps, desc, false, n + 1, core.answers)
      ensures iface.Some? ==> Carries(core.log, iface.value, OneBuffering(Asked(desc)))
      ensures core.fatal == old(core.fatal)
      ensures ret != INVARG ==>
        var n := |old(core.log)|;
        ret == OK <==>
          if desc.preallocated.Some? then core.answers(n) && PlainServed(desc, n + 1, core.answers)
          else PlainServed(desc, n, core.answers)
      ensures ret == OK ==> PaletteOrder(core.log, |old(core.log)|, iface.value, desc, true)
      ensures old(core.log) <= core.log
      ensures ret == OK ==> AsksAt(core.log, |old(core.log)| + if desc.preallocated.Some? then 1 else 0, layout)
    {
      hide Core.Valid, WrapCalls, OneBuffering, BuffersFit, PaletteOrder;
      iface := None;
      var spec := Spec(Some(layout), OneBuffering(Asked(desc)));
      if desc.preallocated.Some? {
        var fit := CheckBuffers(desc.preallocated.value, spec, config.minPitch(layout.format, layout.width));
        if !fit {
          return INVARG, None;
        }
        var ok := core.Consult();
        if !ok {
          return CORE_FAILURE, None;
        }
      }
      iface := PlainSurface(desc, spec, false);
      ret := if iface.Some? then OK else CORE_FAILURE;
      if ret == OK && desc.preallocated.Some? {
        PaletteOrderSince(core.log, |old(core.log)|, |old(core.log)| + 1, iface.value, desc, true);
      }
    }

    /** The configuration names the surface that is the primary. */
    predicate ById(desc: SurfaceDescription) {
      PRIMARY in Asked(desc) && config.primaryId
    }

    /** The description is for a primary of this session's own. */
    predicate OwnPrimary(desc: SurfaceDescription) {
      PRIMARY in Asked(desc) && !config.primaryId && desc.preallocated.None?
    }

    predicate MakesWindow(desc: SurfaceDescription)
      reads this`level
    {
      OwnPrimary(desc) && level == NORMAL && !config.forceDesktop
    }

    /** What an application is told its new surface can do. */
    ghost predicate Grants(desc: SurfaceDescription, granted: set<Cap>)
      reads this`level
    {
      var caps := Asked(desc);
      if PRIMARY in caps && config.primaryId then granted == {PRIMARY}
      else if MakesWindow(desc) then granted == PolicyCaps(caps, config.windowPolicy)
      else if PRIMARY in caps && level != NORMAL then
        exists i :: 0 <= i < |Ladder(caps)| && granted == Granted(caps, Ladder(caps)[i])
      else granted == OneBuffering(caps)
    }

    /** How many calls come before the request for the surface itself. */
    function Preparations(desc: SurfaceDescription): nat {
      if desc.preallocated.Some? then 1 else 0
    }

    function AskedLayout(desc: SurfaceDescription, current: Layout): Layout
      reads this`width, this`height, this`format
    {
      if PRIMARY in Asked(desc) then PrimaryLayout(desc, current) else PlainLayout(desc, current)
    }

    /** The size and format a surface is asked to have. */
    lemma LayoutWrittenOut(desc: SurfaceDescription, current: Layout)
      ensures
        var primary := PRIMARY in Asked(desc);
        var w := if desc.width.Some? then desc.width.value else if !primary then 256
                 else if width != 0 then width else if config.mode.width != 0 then config.mode.width
                 else current.width;
        var h := if desc.height.Some? then desc.height.value else if !primary then 256
                 else if height != 0 then height else if config.mode.height != 0 then config.mode.height
                 else current.height;
        var f := if desc.format.Some? then desc.format.value
                 else if !primary then (if desc.font then config.fontFormat else current.format)
                 else if format != 0 then format else if config.mode.format != 0 then config.mode.format
                 else current.format;
        AskedLayout(desc, current) == Layout(w, h, f)
    {
    }

    /** The application was given an interface that has capabilities the description stands for. */
    ghost predicate Granting(log: seq<Call>, iface: Ref, desc: SurfaceDescription)
      reads this`level
    {
      && iface.id < |log| && log[iface.id].Acquired? && log[iface.id].ref == iface
      && Grants(desc, log[iface.id].spec.caps)
    }

    /** Preallocated buffers are not for a primary, and have to be there and wide enough. */
    predicate RefusesBuffers(desc: SurfaceDescription, current: Layout) {
      desc.preallocated.Some? &&
        if PRIMARY in Asked(desc) then !config.primaryId else BuffersRefused(desc, PlainLayout(desc, current))
    }

    /** Only a primary in a window can be told that it has both two and three buffers. */
    lemma GrantsOneBuffering(desc: SurfaceDescription, granted: set<Cap>)
      requires Grants(desc, granted)
      ensures {DOUBLE_BUFFER, TRIPLE_BUFFER} <= granted
        <==> MakesWindow(desc) && {DOUBLE_BUFFER, TRIPLE_BUFFER} <= Asked(desc)
    {
    }

    /** A fullscreen primary cannot have three buffers in system memory. */
    predicate Unsupported(desc: SurfaceDescription)
      reads this`level
    {
      OwnPrimary(desc) && level != NORMAL && TRIPLE_BUFFER in Asked(desc) && SYSTEMONLY in Asked(desc)
    }

    /** The core serves the request for any surface but the windowed primary. */
    ghost predicate WindowlessServed(desc: SurfaceDescription, n: nat)
      reads this`level
    {
      if PRIMARY in Asked(desc) && config.primaryId then core.answers(n) && core.answers(n + 1)
      else if OwnPrimary(desc) && level != NORMAL then FullscreenServed(desc, Asked(desc), n, core.answers)
      else if OwnPrimary(desc) || desc.preallocated.None? then PlainServed(desc, n, core.answers)
      else core.answers(n) && PlainServed(desc, n + 1, core.answers)
    }

    /** The capabilities a description stands for. */
    lemma AskedWrittenOut(desc: SurfaceDescription)
      ensures desc.caps.Some? ==> Asked(desc) == desc.caps.value
      ensures desc.caps.None? ==> Asked(desc) == if desc.font && config.fontPremultiplied then {PREMULTIPLIED} else {}
    {
    }

    /** Which descriptions are for a primary, for a window, and which are refused or not supported. */
    lemma CasesWrittenOut(desc: SurfaceDescription, current: Layout)
      ensures ById(desc) <==> PRIMARY in Asked(desc) && config.primaryId
      ensures OwnPrimary(desc) <==> PRIMARY in Asked(desc) && !config.primaryId && desc.preallocated.None?
      ensures MakesWindow(desc) <==>
        PRIMARY in Asked(desc) && !config.primaryId && desc.preallocated.None? &&
        level == NORMAL && !config.forceDesktop
      ensures Unsupported(desc) <==>
        PRIMARY in Asked(desc) && !config.primaryId && desc.preallocated.None? && level != NORMAL &&
        TRIPLE_BUFFER in Asked(desc) && SYSTEMONLY in Asked(desc)
      ensures RefusesBuffers(desc, current) && PRIMARY in Asked(desc) <==>
        desc.preallocated.Some? && PRIMARY in Asked(desc) && !config.primaryId
    {
    }

    /** Which preallocated buffers a plain surface is refused for. */
    lemma BuffersWrittenOut(desc: SurfaceDescription, current: Layout)
      requires PRIMARY !in Asked(desc) && desc.preallocated.Some?
      ensures
        var w := if desc.width.Some? then desc.width.value else 256;
        var f := if desc.format.Some? then desc.format.value
                 else if desc.font then config.fontFormat else current.format;
        var num := if DOUBLE_BUFFER in Asked(desc) then 2 else if TRIPLE_BUFFER in Asked(desc) then 3 else 1;
        RefusesBuffers(desc, current) <==>
          exists i :: 0 <= i < num &&
            !(desc.preallocated.value[i].data && desc.preallocated.value[i].pitch >= config.minPitch(f, w))
    {
      var b := desc.preallocated.value;
      assert b[0].data == b[0].data && b[1].data == b[1].data && b[2].data == b[2].data;
    }

    /** What a description has to keep to, whatever the surface is for. */
    lemma AcceptableWrittenOut(desc: SurfaceDescription, current: Layout)
      ensures
        var f := if desc.format.Some? then desc.format.value
                 else if desc.font then config.fontFormat else current.format;
        !Acceptable(desc, current) <==>
          || (desc.width.Some? && (desc.width.value < 1 || desc.width.value > 20480))
          || (desc.height.Some? && (desc.height.value < 1 || desc.height.value > 20480))
          || (desc.palette.Some? && (!desc.palette.value.given || desc.palette.value.size == 0))
          || (desc.colorspace.Some? && !config.compatible(desc.colorspace.value, f))
          || !config.supported(f)
    {
    }

    /** Every surface but the windowed primary: nothing but the interface is kept. */
    method WindowlessSurface(desc: SurfaceDescription, current: Layout) returns (ret: Result, iface: Option<Ref>)
      requires Valid() && !MakesWindow(desc)
      modifies core
      ensures Accounts(iface) && IsInterface(iface)
      ensures ret == OK <==> iface.Some?
      ensures ret == INVARG <==> RefusesBuffers(desc, current)
      ensures ret == OK && !ById(desc) ==>
        AsksAt(core.log, |old(core.log)| + Preparations(desc), AskedLayout(desc, current))
      ensures ret == OK ==> Granting(core.log, iface.value, desc)
      ensures ret == UNSUPPORTED <==> Unsupported(desc)
      ensures ret == OK
        <==> !RefusesBuffers(desc, current) && !Unsupported(desc) && WindowlessServed(desc, |old(core.log)|)
      ensures ret == OK || ret == INVARG || ret == UNSUPPORTED || ret == CORE_FAILURE
      ensures ret == OK ==> PaletteOrder(core.log, |old(core.log)|, iface.value, desc, !ById(desc))
      ensures ret == OK ==> old(core.log) <= core.log
    {
      hide Balanced, Core.Valid, One, Ladder, Granted, OneBuffering, PlainServed, FullscreenServed, WrapCalls,
        PaletteCalls, BuffersFit, FullscreenLog, PaletteOrder, AsksAt, PrimaryLayout;
      ghost var live := core.live;
      if PRIMARY in Asked(desc) {
        if config.primaryId {
          iface := PrimaryById(desc);
        } else if desc.preallocated.Some? {
          return INVARG, None;
        } else if level == NORMAL {
          iface := PlainSurface(desc, Spec(Some(PrimaryLayout(desc, current)), OneBuffering(Asked(desc))), true);
        } else {
          PrimaryOut(live, context, window, primaryContext.value, layers, handedOut);
          ret, iface := FullscreenPrimary(desc, PrimaryLayout(desc, current));
          FlightOf(live, context, window, primaryContext, layers, handedOut, iface);
          return;
        }
        ret := if iface.Some? then OK else CORE_FAILURE;
      } else {
        ret, iface := OtherSurface(desc, PlainLayout(desc, current));
      }
      FlightOf(live, context, window, primaryContext, layers, handedOut, iface);
    }

    /** The core serves the request for a surface that has passed its checks. */
    ghost predicate Served(desc: SurfaceDescription, n: nat)
      reads this`level, this`window
    {
      if MakesWindow(desc) then WindowServed(desc, config, window, n, core.answers) else WindowlessServed(desc, n)
    }

    /** A core that refuses nothing serves every request. */
    lemma WillingServes(desc: SurfaceDescription, n: nat)
      requires forall k :: core.answers(k)
      ensures Served(desc, n)
    {
      var caps := Asked(desc);
      assert FirstYes(core.answers, n, 0) && LayerServed(desc, Ladder(caps)[0], n + 1, core.answers);
    }

    /** A surface whose description has passed the checks. */
    method MakeSurface(desc: SurfaceDescription, current: Layout) returns (ret: Result, iface: Option<Ref>)
      requires Valid()
      modifies this`window, this`focused, core
      ensures Accounts(iface) && Settled() && IsInterface(iface)
      ensures ret == OK <==> iface.Some?
      ensures ret == INVARG <==> RefusesBuffers(desc, current)
      ensures ret == UNSUPPORTED <==> Unsupported(desc)
      ensures ret == OK || ret == INVARG || ret == UNSUPPORTED || ret == CORE_FAILURE
      ensures ret == OK <==>
        !RefusesBuffers(desc, current) && !Unsupported(desc) && old(Served(desc, |core.log|))
      ensures MakesWindow(desc) && ret == OK ==> window == Some(Ref(WINDOW, |old(core.log)|)) && !focused
      ensures
        || (window == old(window) && focused == old(focused))
        || (MakesWindow(desc) && window == Some(Ref(WINDOW, |old(core.log)|)) && !focused)
      ensures ret == OK && !ById(desc) ==>
        AsksAt(core.log, |old(core.log)| + Preparations(desc), AskedLayout(desc, current))
      ensures
        var (primary, at) := (PRIMARY in Asked(desc), |old(core.log)| + if desc.preallocated.Some? then 1 else 0);
        var w := if desc.width.Some? then desc.width.value else if !primary then 256
                 else if width != 0 then width else if config.mode.width != 0 then config.mode.width
                 else current.width;
        var h := if desc.height.Some? then desc.height.value else if !primary then 256
                 else if height != 0 then height else if config.mode.height != 0 then config.mode.height
                 else current.height;
        var f := if desc.format.Some? then desc.format.value
                 else if !primary then (if desc.font then config.fontFormat else current.format)
                 else if format != 0 then format else if config.mode.format != 0 then config.mode.format
                 else current.format;
        ret == OK && !ById(desc) ==> AsksAt(core.log, at, Layout(w, h, f))
      ensures ret == OK ==> Granting(core.log, iface.value, desc)
      ensures ret == OK ==> PaletteOrder(core.log, |old(core.log)|, iface.value, desc, !ById(desc))
      ensures ret == OK ==> old(core.log) <= core.log
    {
      hide Balanced, Core.Valid, One, Grants, AsksAt, PrimaryLayout, WindowServed, WindowlessServed, PaletteOrder,
        WindowLog;
      LayoutWrittenOut(desc, current);
      assert MakesWindow(desc) ==> AskedLayout(desc, current) == PrimaryLayout(desc, current);
      hide AskedLayout;
      if MakesWindow(desc) {
        iface := WindowPrimary(desc, PrimaryLayout(desc, current));
        ret := if iface.Some? then OK else CORE_FAILURE;
      } else {
        ret, iface := WindowlessSurface(desc, current);
      }
    }

    method CreateSurface(desc: SurfaceDescription) returns (ret: Result, iface: Option<Ref>)
      requires Valid()
      modifies this`window, this`focused, this`handedOut, core
      ensures Valid() && handedOut == old(handedOut) + One(iface) && IsInterface(iface)
      ensures ret == OK <==> iface.Some?
      // which descriptions are refused, and for which answers of the core a surface comes about
      ensures
        var current := core.layouts(|old(core.log)|);
        && (ret == INVARG <==> !Acceptable(desc, current) || RefusesBuffers(desc, current))
        && (ret == UNSUPPORTED <==> Acceptable(desc, current) && Unsupported(desc))
      ensures ret == OK <==> ret != INVARG && ret != UNSUPPORTED && old(Served(desc, |core.log| + 1))
      ensures ret == OK || ret == INVARG || ret == UNSUPPORTED || ret == CORE_FAILURE
      // only a primary in windowed mode touches the window, and then a new one takes its place
      ensures MakesWindow(desc) && ret == OK ==> window == Some(Ref(WINDOW, |old(core.log)| + 1)) && !focused
      ensures
        || (window == old(window) && focused == old(focused))
        || (MakesWindow(desc) && window == Some(Ref(WINDOW, |old(core.log)| + 1)) && !focused)
      // what is asked of the core for a primary, and what the application is told about any surface
      ensures ret == OK && !ById(desc) ==>
        AsksAt(core.log, |old(core.log)| + 1 + Preparations(desc), AskedLayout(desc, core.layouts(|old(core.log)|)))
      ensures ret == OK ==> Granting(core.log, iface.value, desc)
      // a surface has its palette before the application gets it, but for the one with a configured id
      ensures ret == OK ==> PaletteOrder(core.log, |old(core.log)|, iface.value, desc, !ById(desc))
    {
      hide Balanced, Core.Valid, One, Granting, AsksAt, Acceptable, AskedLayout, Served, RefusesBuffers, Unsupported,
        OwnPrimary, MakesWindow, PaletteOrder;
      iface := None;
      AllOut(core.live, context, window, primaryContext, layers, handedOut);
      assert ContextsHeld();
      hide Settled;
      var current := CurrentLayout();
      ghost var log := core.log;
      assert NoPalette(log, |old(core.log)|, |log|);
      if Acceptable(desc, current) {
        ret, iface := MakeSurface(desc, current);
        if ret == OK {
          PaletteOrderSince(core.log, |old(core.log)|, |log|, iface.value, desc, !ById(desc));
        }
      } else {
        ret := INVARG;
        FlightOf(core.live, context, window, primaryContext, layers, handedOut, None);
      }
      Booked(core.live, context, window, primaryContext, layers, handedOut, iface);
      handedOut := handedOut + One(iface);
    }

    /** The application gives back one of its interfaces. */
    method ReleaseInterface(r: Ref)
      requires Valid() && r in handedOut
      modifies this`handedOut, core
      ensures Valid() && handedOut == old(handedOut) - multiset{r} && core.log == old(core.log) + [Released(r)]
    {
      hide Balanced, Core.Valid;
      HandedBack(core.live, context, window, primaryContext, layers, handedOut, r);
      core.Release(r);
      handedOut := handedOut - multiset{r};
    }

    // ---- Layers ----

    method ReleaseThree(x: Ref, y: Ref, z: Ref)
      requires core.Valid() && x in core.live && y in core.live - multiset{x}
      requires z in core.live - multiset{x} - multiset{y}
      modifies core
      ensures core.Valid() && core.listener == old(core.listener)
      ensures core.live == old(core.live) - multiset{x} - multiset{y} - multiset{z}
      ensures core.log == old(core.log) + [Released(x), Released(y), Released(z)]
      ensures core.fatal == old(core.fatal)
    {
      hide Core.Valid;
      core.Release(x);
      core.Release(y);
      core.Release(z);
    }

    /** Gives back what one initialised layer holds. */
    method ReleaseSlot(slot: Slot, ghost rest: multiset<Ref>)
      requires core.Valid() && slot.Valid() && slot.context.Some? && core.live == rest + SlotRefs(slot)
      modifies core
      ensures core.Valid() && core.listener == old(core.listener) && core.live == rest
      ensures core.log == old(core.log) +
        ((if slot.palette.Some? then [Released(slot.palette.value)] else []) +
         [Released(slot.surface.value), Released(slot.region.value), Released(slot.context.value)])
      ensures core.fatal == old(core.fatal)
    {
      SlotReleased(rest, slot);
      hide Core.Valid, SlotRefs;
      if slot.palette.Some? {
        core.Release(slot.palette.value);
      }
      AssociateCalls(old(core.log), if slot.palette.Some? then [Released(slot.palette.value)] else [],
                     [Released(slot.surface.value), Released(slot.region.value), Released(slot.context.value)]);
      ReleaseThree(slot.surface.value, slot.region.value, slot.context.value);
    }

    method CreatePalette(surface: Ref) returns (palette: Option<Ref>)
      requires core.Valid() && surface in core.live
      modifies core
      ensures core.Valid() && core.listener == old(core.listener) && core.live == old(core.live) + One(palette)
      ensures core.fatal == old(core.fatal)
      ensures
        var n := |old(core.log)|;
        var p := Ref(PALETTE, n);
        && palette == (if core.answers(n) && core.answers(n + 1) then Some(p) else None)
        && core.log == old(core.log) +
             if !core.answers(n) then [Refused(PALETTE, None)]
             else if core.answers(n + 1) then [Acquired(p, None), Used(surface, SetPalette, true)]
             else [Acquired(p, None), Used(surface, SetPalette, false), Released(p)]
    {
      hide Core.Valid;
      palette := core.Acquire(PALETTE, None);
      if palette.None? {
        return;
      }
      var ok := core.Ask(surface, SetPalette);
      if !ok {
        core.Release(palette.value);
        palette := None;
      }
    }

    /** A picture fills the layer, tiles have the size they come in; either is shared and has the layer's format. */
    static function BackgroundDescription(background: Background, layout: Layout): (desc: SurfaceDescription)
      requires background.IMAGE? || background.TILE?
      ensures desc.caps == Some({SHARED}) && desc.format == Some(layout.format)
      ensures background.IMAGE? ==>
        && desc.width == Some(layout.width) && desc.height == Some(layout.height)
        && !desc.font && desc.colorspace.None? && desc.palette.None? && desc.preallocated.None?
      ensures background.TILE? ==>
        desc == background.provided.(caps := Some({SHARED}), format := Some(layout.format))
    {
      var desc := if background.IMAGE?
                  then NOTHING_ASKED.(width := Some(layout.width), height := Some(layout.height))
                  else background.provided;
      desc.(caps := Some({SHARED}), format := Some(layout.format))
    }

    method LoadBackgroundImage(background: Background, layout: Layout)
      requires ContextsHeld() && (background.IMAGE? || background.TILE?)
      modifies core
      ensures core.Valid() && core.listener == old(core.listener) && core.live == old(core.live)
      ensures core.fatal == old(core.fatal)
      ensures LoadLog(old(core.log), core.log, background, layout) && old(core.log) <= core.log
      ensures |old(core.log)| < |core.log| && core.log[|old(core.log)|] ==
        if core.answers(|old(core.log)|) then Acquired(Ref(PROVIDER, |old(core.log)|), None)
        else Refused(PROVIDER, None)
    {
      hide Core.Valid, BackgroundDescription, PictureLog;
      var provider := core.Acquire(PROVIDER, None);
      if provider.None? {
        return;
      }
      ghost var image := ProvideBackground(provider.value, BackgroundDescription(background, layout));
    }

    /** The core gives out a shared surface for this description. */
    predicate SharedServed(desc: SurfaceDescription, n: nat) {
      var current := core.layouts(n);
      && Acceptable(desc, current) && !BuffersRefused(desc, PlainLayout(desc, current))
      && if desc.preallocated.Some? then core.answers(n + 1) && PlainServed(desc, n + 2, core.answers)
         else PlainServed(desc, n + 1, core.answers)
    }

    /**
      What happens with a provider: if the picture can be made it is rendered,
      and becomes the background if that worked; both are given back.
     */
    ghost predicate PictureLog(before: seq<Call>, after: seq<Call>, provider: Ref, desc: SurfaceDescription,
                               image: Option<Ref>) {
      && (image.Some? <==> SharedServed(desc, |before|))
      && before <= after
      && (image.None? ==> |before| < |after| && after[|after| - 1] == Released(provider))
      && (image.Some? ==>
            exists made :: before <= made && after == made + Rendered(provider, image.value, |made|))
    }

    /** The picture is made and shown, if that can be, and the provider given back. */
    method ProvideBackground(provider: Ref, desc: SurfaceDescription) returns (ghost image: Option<Ref>)
      requires ContextsHeld() && provider in core.live && desc.caps == Some({SHARED})
      modifies core
      ensures core.Valid() && core.listener == old(core.listener) && core.live == old(core.live) - multiset{provider}
      ensures core.fatal == old(core.fatal)
      ensures PictureLog(old(core.log), core.log, provider, desc, image) && old(core.log) <= core.log
    {
      hide Core.Valid, SharedServed, PictureLog, Rendered;
      var shared := SharedSurface(desc);
      image := shared;
      ghost var made := core.log;
      if shared.None? {
        core.Release(provider);
      } else {
        Returned(old(core.live), shared.value);
        RenderBackground(provider, shared.value);
        RenderedIs(provider, shared.value, |made|);
      }
      PictureIs(old(core.log), made, core.log, provider, desc, image);
    }

    lemma PictureIs(before: seq<Call>, made: seq<Call>, after: seq<Call>, provider: Ref, desc: SurfaceDescription,
                    image: Option<Ref>)
      requires before <= made && (image.Some? <==> SharedServed(desc, |before|))
      requires after == made + if image.Some? then Rendered(provider, image.value, |made|) else [Released(provider)]
      ensures PictureLog(before, after, provider, desc, image) && before <= after
    {
      hide SharedServed, Rendered;
    }

    lemma RenderedIs(provider: Ref, image: Ref, n: nat)
      ensures Rendered(provider, image, n) ==
        if core.answers(n)
        then [Used(provider, Render, true), Released(provider), Told(image, BecomeBackground), Released(image)]
        else [Used(provider, Render, false), Released(image), Released(provider)]
    {
    }

    /** The calls once there is a picture. */
    function Rendered(provider: Ref, image: Ref, n: nat): seq<Call> {
      if core.answers(n)
      then [Used(provider, Render, true), Released(provider), Told(image, BecomeBackground), Released(image)]
      else [Used(provider, Render, false), Released(image), Released(provider)]
    }

    /** Both the provider and the picture are given back, whether it could be rendered or not. */
    method RenderBackground(provider: Ref, image: Ref)
      requires core.Valid() && image in core.live && provider in core.live - multiset{image}
      modifies core
      ensures core.Valid() && core.listener == old(core.listener)
      ensures core.live == old(core.live) - multiset{image} - multiset{provider}
      ensures core.fatal == old(core.fatal)
      ensures core.log == old(core.log) +
        if core.answers(|old(core.log)|)
        then [Used(provider, Render, true), Released(provider), Told(image, BecomeBackground), Released(image)]
        else [Used(provider, Render, false), Released(image), Released(provider)]
    {
      hide Core.Valid;
      var ok := core.Ask(provider, Render);
      if !ok {
        core.Release(image);
        core.Release(provider);
        return;
      }
      core.Release(provider);
      core.Tell(image, BecomeBackground);
      core.Release(image);
    }

    /** The surface a background picture is rendered to. */
    method SharedSurface(desc: SurfaceDescription) returns (iface: Option<Ref>)
      requires ContextsHeld() && desc.caps == Some({SHARED})
      modifies core
      ensures core.Valid() && core.listener == old(core.listener) && core.live == old(core.live) + One(iface)
      ensures IsInterface(iface)
      ensures iface.Some? ==> Carries(core.log, iface.value, {SHARED})
      ensures core.fatal == old(core.fatal)
      ensures old(core.log) <= core.log
      ensures iface.Some? <==> SharedServed(desc, |old(core.log)|)
    {
      hide Core.Valid, WrapCalls;
      iface := None;
      var current := CurrentLayout();
      if Acceptable(desc, current) {
        var _, surface := OtherSurface(desc, PlainLayout(desc, current));
        iface := surface;
      }
    }

    /** The parts of a configuration that are left after the tests, and the buffer mode, from place n of the log on. */
    static function Negotiated(conf: LayerConfig, n: nat, answers: nat -> bool, failing: nat -> set<ConfigFlag>)
      : (set<ConfigFlag>, BufferMode)
    {
      var consults := BUFFERMODE !in conf.flags;
      var test := n + if consults then 1 else 0;
      var first := if !consults then conf.mode else if answers(n) then BACKVIDEO else BACKSYSTEM;
      var fail := if answers(test) then {} else failing(test);
      var flags := set f | f in conf.flags + {BUFFERMODE} &&
        !(f in {WIDTH, HEIGHT} && (WIDTH in fail || HEIGHT in fail)) &&
        !(f == PIXELFORMAT && PIXELFORMAT in fail) &&
        !(f == BUFFERMODE && BUFFERMODE in fail && !answers(test + 1));
      (flags, if BUFFERMODE in fail then BACKSYSTEM else first)
    }

    /** Drops what the core does not accept, and falls back to the system buffer before giving up buffering. */
    method NegotiateConfiguration(c: Ref, conf: LayerConfig) returns (flags: set<ConfigFlag>, mode: BufferMode)
      requires core.Valid() && c in core.live
      modifies core
      ensures core.Valid() && core.listener == old(core.listener) && core.live == old(core.live)
      ensures core.fatal == old(core.fatal)
      ensures
        var consults := BUFFERMODE !in conf.flags;
        var n := |old(core.log)| + if consults then 1 else 0;
        var first := if !consults then conf.mode else if core.answers(n - 1) then BACKVIDEO else BACKSYSTEM;
        var fail := if core.answers(n) then {} else core.failing(n);
        // what is left of the configuration
        && (WIDTH in flags <==> WIDTH in conf.flags && WIDTH !in fail && HEIGHT !in fail)
        && (HEIGHT in flags <==> HEIGHT in conf.flags && WIDTH !in fail && HEIGHT !in fail)
        && (PIXELFORMAT in flags <==> PIXELFORMAT in conf.flags && PIXELFORMAT !in fail)
        && (BUFFERMODE in flags <==> BUFFERMODE !in fail || core.answers(n + 1))
        && (OTHERS in flags <==> OTHERS in conf.flags)
        && mode == (if BUFFERMODE in fail then BACKSYSTEM else first)
        // what the core is asked for it
        && core.log == old(core.log) + (if consults then [Consulted(core.answers(n - 1))] else []) +
             [Used(c, TestConfiguration(conf.flags + {BUFFERMODE}, first), core.answers(n))] +
             if BUFFERMODE in fail
             then [Used(c, TestConfiguration(flags + {BUFFERMODE}, BACKSYSTEM), core.answers(n + 1))]
             else []
    {
      hide Core.Valid;
      flags, mode := conf.flags, conf.mode;
      if BUFFERMODE !in flags {
        var blits := core.Consult();
        flags := flags + {BUFFERMODE};
        mode := if blits then BACKVIDEO else BACKSYSTEM;
      }
      assert flags == conf.flags + {BUFFERMODE};
      var ok, fail := core.Test(c, flags, mode);
      if !ok {
        flags, mode := DropRefused(c, flags, mode, fail);
      }
    }

    /** What the first test complained about is dropped, and the system buffer tried instead of another buffer mode. */
    method DropRefused(c: Ref, flags0: set<ConfigFlag>, mode0: BufferMode, fail0: set<ConfigFlag>)
      returns (flags: set<ConfigFlag>, mode: BufferMode)
      requires core.Valid() && c in core.live && BUFFERMODE in flags0
      modifies core
      ensures core.Valid() && core.listener == old(core.listener) && core.live == old(core.live)
      ensures core.fatal == old(core.fatal)
      ensures WIDTH in flags <==> WIDTH in flags0 && WIDTH !in fail0 && HEIGHT !in fail0
      ensures HEIGHT in flags <==> HEIGHT in flags0 && WIDTH !in fail0 && HEIGHT !in fail0
      ensures PIXELFORMAT in flags <==> PIXELFORMAT in flags0 && PIXELFORMAT !in fail0
      ensures BUFFERMODE in flags <==> BUFFERMODE !in fail0 || core.answers(|old(core.log)|)
      ensures OTHERS in flags <==> OTHERS in flags0
      ensures mode == if BUFFERMODE in fail0 then BACKSYSTEM else mode0
      ensures core.log == old(core.log) +
        if BUFFERMODE in fail0
        then [Used(c, TestConfiguration(flags + {BUFFERMODE}, BACKSYSTEM), core.answers(|old(core.log)|))]
        else []
    {
      hide Core.Valid;
      flags, mode := flags0, mode0;
      if WIDTH in fail0 || HEIGHT in fail0 {
        flags := flags - {WIDTH, HEIGHT};
      }
      if PIXELFORMAT in fail0 {
        flags := flags - {PIXELFORMAT};
      }
      if BUFFERMODE in fail0 {
        mode := BACKSYSTEM;
        assert flags + {BUFFERMODE} == flags;
        var ok, _ := core.Test(c, flags, mode);
        if !ok {
          assert flags - {BUFFERMODE} + {BUFFERMODE} == flags;
          flags := flags - {BUFFERMODE};
        }
      }
    }

    /** The negotiation as a function of the core's answers from place n of the log on. */
    lemma NegotiatedIs(conf: LayerConfig, n: nat, flags: set<ConfigFlag>, mode: BufferMode)
      requires
        var consults := BUFFERMODE !in conf.flags;
        var test := n + if consults then 1 else 0;
        var first := if !consults then conf.mode else if core.answers(n) then BACKVIDEO else BACKSYSTEM;
        var fail := if core.answers(test) then {} else core.failing(test);
        && (WIDTH in flags <==> WIDTH in conf.flags && WIDTH !in fail && HEIGHT !in fail)
        && (HEIGHT in flags <==> HEIGHT in conf.flags && WIDTH !in fail && HEIGHT !in fail)
        && (PIXELFORMAT in flags <==> PIXELFORMAT in conf.flags && PIXELFORMAT !in fail)
        && (BUFFERMODE in flags <==> BUFFERMODE !in fail || core.answers(test + 1))
        && (OTHERS in flags <==> OTHERS in conf.flags)
        && mode == (if BUFFERMODE in fail then BACKSYSTEM else first)
      ensures (flags, mode) == Negotiated(conf, n, core.answers, core.failing)
    {
      var other := Negotiated(conf, n, core.answers, core.failing).0;
      forall f: ConfigFlag ensures f in flags <==> f in other {
        match f
        case WIDTH => case HEIGHT => case PIXELFORMAT => case BUFFERMODE => case OTHERS =>
      }
      assert flags == other;
    }

    /** The calls for a background; with a picture, the mode comes after all that is done for it. */
    ghost predicate BackgroundLog(before: seq<Call>, after: seq<Call>, c: Ref, background: Background, layout: Layout) {
      match background
      case NO_BACKGROUND => after == before + [Told(c, SetBackgroundMode)]
      case COLOR =>
        after == before +
          [Told(c, SetBackgroundColor), Told(c, SetBackgroundColorIndex), Told(c, SetBackgroundMode)]
      case IMAGE | TILE(_) =>
        && |before| < |after| && after[|after| - 1] == Told(c, SetBackgroundMode)
        && LoadLog(before, after[..|after| - 1], background, layout)
    }

    /** The provider is asked for first; without one there is no picture. */
    ghost predicate LoadLog(before: seq<Call>, after: seq<Call>, background: Background, layout: Layout)
      requires background.IMAGE? || background.TILE?
    {
      if core.answers(|before|) then
        var provider, desc := Ref(PROVIDER, |before|), BackgroundDescription(background, layout);
        exists image :: PictureLog(before + [Acquired(provider, None)], after, provider, desc, image)
      else after == before + [Refused(PROVIDER, None)]
    }

    method SetBackground(c: Ref, background: Background, layout: Layout)
      requires ContextsHeld() && c in core.live
      modifies core
      ensures core.Valid() && core.listener == old(core.listener) && core.live == old(core.live)
      ensures core.fatal == old(core.fatal) && old(core.log) <= core.log
      ensures BackgroundLog(old(core.log), core.log, c, background, layout)
      ensures background.NO_BACKGROUND? ==> core.log == old(core.log) + [Told(c, SetBackgroundMode)]
      ensures background.COLOR? ==>
        core.log == old(core.log) +
          [Told(c, SetBackgroundColor), Told(c, SetBackgroundColorIndex), Told(c, SetBackgroundMode)]
      ensures |old(core.log)| < |core.log| && core.log[|core.log| - 1] == Told(c, SetBackgroundMode)
    {
      hide Core.Valid, LoadLog;
      match background {
        case NO_BACKGROUND =>
        case COLOR =>
          core.Tell(c, SetBackgroundColor);
          core.Tell(c, SetBackgroundColorIndex);
        case IMAGE | TILE(_) => LoadBackgroundImage(background, layout);
      }
      ghost var log := core.log;
      core.Tell(c, SetBackgroundMode);
      assert core.log[..|core.log| - 1] == log;
    }

    /** The primary region of a context and its surface, or neither. */
    method TakeRegion(c: Ref) returns (region: Option<Ref>, surface: Option<Ref>)
      requires core.Valid() && c in core.live
      modifies core
      ensures core.Valid() && core.listener == old(core.listener)
      ensures core.live == old(core.live) + One(region) + One(surface)
      ensures region.Some? <==> surface.Some?
      ensures (region.Some? <==> core.fatal == old(core.fatal)) && core.fatal >= old(core.fatal)
      ensures old(core.log) <= core.log
      ensures region.Some? ==>
        && region == Some(Ref(REGION, |old(core.log)|)) && surface == Some(Ref(SURFACE, |old(core.log)| + 1))
        && core.log == old(core.log) + [Acquired(region.value, Some(c)), Acquired(surface.value, region)]
      ensures region.Some? <==> core.answers(|old(core.log)|) && core.answers(|old(core.log)| + 1)
    {
      hide Core.Valid;
      surface := None;
      region := core.Acquire(REGION, Some(c));
      if region.None? {
        return;
      }
      surface := core.Acquire(SURFACE, region);
      if surface.None? {
        core.Release(region.value);
        region := None;
      }
    }

    /** The calls for the palette of a layer, if it is configured to have one. */
    function PaletteOf(conf: LayerConfig, surface: Ref, n: nat): seq<Call> {
      var p := Ref(PALETTE, n);
      if !conf.paletteSet then []
      else if !core.answers(n) then [Refused(PALETTE, None)]
      else if core.answers(n + 1) then [Acquired(p, None), Used(surface, SetPalette, true)]
      else [Acquired(p, None), Used(surface, SetPalette, false), Released(p)]
    }

    /**
      A layer that has its configuration, from place n on: it is read back, then
      region and surface are taken, the palette made if there is one, the colour
      key set, and at last the background.
     */
    ghost predicate Equipped(before: seq<Call>, after: seq<Call>, conf: LayerConfig, slot: Slot) {
      var n := |before|;
      var r, s, p := Ref(REGION, n + 1), Ref(SURFACE, n + 2), Ref(PALETTE, n + 3);
      && slot.context.Some? && slot.region == Some(r) && slot.surface == Some(s)
      && slot.palette == (if conf.paletteSet && core.answers(n + 3) && core.answers(n + 4) then Some(p) else None)
      && var c := slot.context.value;
         var keyed := before + [Told(c, GetConfiguration)] + [Acquired(r, Some(c)), Acquired(s, Some(r))] +
           PaletteOf(conf, s, n + 3) + [Told(c, SetColorKey)];
         keyed <= after && BackgroundLog(keyed, after, c, conf.background, core.layouts(n))
    }

    /** The core was not asked to configure a layer between these places of the log. */
    ghost predicate Unconfigured(log: seq<Call>, from: nat, to: nat) {
      forall k :: from <= k < to && k < |log| ==> !(log[k].Used? && log[k].what.SetConfiguration?)
    }

    /** The configuration is negotiated and, unless nothing is left of it, set and accepted. */
    ghost predicate Configured(before: seq<Call>, after: seq<Call>, c: Ref, conf: LayerConfig) {
      var (flags, mode) := Negotiated(conf, |before|, core.answers, core.failing);
      if flags == {} then before <= after && Unconfigured(after, |before|, |after|)
      else
        && |before| < |after| && after[|after| - 1] == Used(c, SetConfiguration(flags, mode), true)
        && before <= after[..|after| - 1] && Unconfigured(after, |before|, |after| - 1)
    }

    /** An initialised layer: the context is taken and configured before anything is taken from the layer. */
    ghost predicate Initialised(before: seq<Call>, after: seq<Call>, conf: LayerConfig, slot: Slot) {
      var c := Ref(CONTEXT, |before|);
      && slot.context == Some(c) && slot.region.Some? && |before| + 1 < slot.region.value.id <= |after|
      && var configured := after[..slot.region.value.id - 1];
         && Configured(before + [Acquired(c, None)], configured, c, conf)
         && Equipped(configured, after, conf, slot)
    }

    /** The region and surface of a layer that has its configuration, with everything else that can be set on it. */
    method EquipLayer(c: Ref, conf: LayerConfig) returns (slot: Slot)
      requires ContextsHeld() && c in core.live
      modifies core
      ensures core.Valid() && core.listener == old(core.listener) && slot.Valid()
      ensures slot.context.Some? ==> slot.context.value == c
      ensures slot.context.None? ==> core.live == old(core.live)
      ensures slot.context.Some? ==>
        core.live == old(core.live) + One(slot.region) + One(slot.surface) + One(slot.palette)
      ensures (slot.context.Some? <==> core.fatal == old(core.fatal)) && core.fatal >= old(core.fatal)
      ensures slot.context.Some? ==> Equipped(old(core.log), core.log, conf, slot)
    {
      hide Core.Valid, BackgroundLog, Equipped;
      slot := EMPTY_SLOT;
      var layout := core.GetLayout(c);
      var region, surface := TakeRegion(c);
      if region.None? {
        return;
      }
      slot := slot.(region := region, surface := surface);
      assert ContextsHeld();
      ghost var taken := core.log;
      if conf.paletteSet {
        var palette := CreatePalette(surface.value);
        slot := slot.(palette := palette);
      }
      core.Tell(c, SetColorKey);
      ghost var keyed := core.log;
      assert keyed == taken + PaletteOf(conf, surface.value, |taken|) + [Told(c, SetColorKey)];
      SetBackground(c, conf.background, layout);
      slot := slot.(context := Some(c));
      EquippedIs(old(core.log), taken, keyed, core.log, conf, slot);
    }

    lemma EquippedIs(before: seq<Call>, taken: seq<Call>, keyed: seq<Call>, after: seq<Call>, conf: LayerConfig,
                     slot: Slot)
      requires slot.context.Some?
      requires slot.region == Some(Ref(REGION, |before| + 1)) && slot.surface == Some(Ref(SURFACE, |before| + 2))
      requires slot.palette ==
        if conf.paletteSet && core.answers(|before| + 3) && core.answers(|before| + 4)
        then Some(Ref(PALETTE, |before| + 3)) else None
      requires taken == before + [Told(slot.context.value, GetConfiguration)] +
        [Acquired(slot.region.value, slot.context), Acquired(slot.surface.value, slot.region)]
      requires keyed == taken + PaletteOf(conf, slot.surface.value, |taken|) + [Told(slot.context.value, SetColorKey)]
      requires keyed <= after
      requires BackgroundLog(keyed, after, slot.context.value, conf.background, core.layouts(|before|))
      ensures Equipped(before, after, conf, slot)
    {
      hide BackgroundLog;
    }

    /** The calls for an initialised layer by their places in the log. */
    lemma EquippedInOrder(before: seq<Call>, after: seq<Call>, conf: LayerConfig, slot: Slot)
      requires Equipped(before, after, conf, slot)
      ensures
        var n, c := |before|, slot.context.value;
        var key := n + 3 +
          if !conf.paletteSet then 0 else if !core.answers(n + 3) then 1 else if core.answers(n + 4) then 2 else 3;
        && before <= after && key + 1 < |after|
        && after[n] == Told(c, GetConfiguration) && after[n + 1] == Acquired(Ref(REGION, n + 1), Some(c))
        && after[n + 2] == Acquired(Ref(SURFACE, n + 2), Some(Ref(REGION, n + 1)))
        && after[key] == Told(c, SetColorKey) && after[|after| - 1] == Told(c, SetBackgroundMode)
    {
      var n, c := |before|, slot.context.value;
      var p := PaletteOf(conf, Ref(SURFACE, n + 2), n + 3);
      var keyed := before + [Told(c, GetConfiguration)] +
        [Acquired(Ref(REGION, n + 1), Some(c)), Acquired(Ref(SURFACE, n + 2), Some(Ref(REGION, n + 1)))] + p +
        [Told(c, SetColorKey)];
      assert keyed <= after && BackgroundLog(keyed, after, c, conf.background, core.layouts(n));
      BackgroundEnds(keyed, after, c, conf.background, core.layouts(n));
      hide BackgroundLog, Equipped;
    }

    lemma BackgroundEnds(before: seq<Call>, after: seq<Call>, c: Ref, background: Background, layout: Layout)
      requires BackgroundLog(before, after, c, background, layout)
      ensures |before| < |after| && after[|after| - 1] == Told(c, SetBackgroundMode)
    {
      hide LoadLog;
    }

    lemma EquippedAfter(before: seq<Call>, after: seq<Call>, conf: LayerConfig, slot: Slot)
      requires Equipped(before, after, conf, slot)
      ensures before <= after && slot.region.value.id == |before| + 1 <= |after| && after[..|before|] == before
    {
      hide BackgroundLog;
    }

    /** Negotiates the configuration and sets what is left of it. */
    method ConfigureLayer(c: Ref, conf: LayerConfig) returns (ok: bool)
      requires core.Valid() && c in core.live
      modifies core
      ensures core.Valid() && core.listener == old(core.listener) && core.live == old(core.live)
      ensures (ok <==> core.fatal == old(core.fatal)) && core.fatal >= old(core.fatal)
      ensures ok ==> Configured(old(core.log), core.log, c, conf) && old(core.log) <= core.log
    {
      hide Core.Valid;
      var flags, mode := NegotiateConfiguration(c, conf);
      NegotiatedIs(conf, |old(core.log)|, flags, mode);
      ghost var tested := core.log;
      assert old(core.log) <= tested && Unconfigured(tested, |old(core.log)|, |tested|);
      hide Negotiated;
      ok := true;
      if flags != {} {
        ok := core.Ask(c, SetConfiguration(flags, mode));
        assert core.log[..|core.log| - 1] == tested;
      }
    }

    method InitLayer(conf: LayerConfig) returns (slot: Slot)
      requires ContextsHeld()
      modifies core
      ensures core.Valid() && core.listener == old(core.listener) && slot.Valid()
      ensures core.live == old(core.live) + SlotRefs(slot)
      ensures (slot.context.Some? <==> core.fatal == old(core.fatal)) && core.fatal >= old(core.fatal)
      ensures slot.context.Some? ==> core.answers(|old(core.log)|)
      ensures slot.context.Some? ==> Initialised(old(core.log), core.log, conf, slot) && old(core.log) <= core.log
    {
      hide Core.Valid, Configured, Equipped, Initialised;
      slot := EMPTY_SLOT;
      var c := core.Acquire(CONTEXT, None);
      Nothing(core.live);
      if c.None? {
        return;
      }
      Swap(old(core.live), multiset{c.value}, multiset{});
      var ok := ConfigureLayer(c.value, conf);
      if !ok {
        core.Release(c.value);
        return;
      }
      ghost var configured := core.log;
      slot := EquipLayer(c.value, conf);
      if slot.context.None? {
        core.Release(c.value);
      } else {
        SlotTaken(old(core.live), slot);
        EquippedAfter(configured, core.log, conf, slot);
        InitialisedIs(old(core.log), configured, core.log, conf, slot);
      }
      hide SlotRefs;
    }

    lemma InitialisedIs(before: seq<Call>, configured: seq<Call>, after: seq<Call>, conf: LayerConfig, slot: Slot)
      requires slot.context == Some(Ref(CONTEXT, |before|)) && slot.region.Some?
      requires slot.region.value.id == |configured| + 1 <= |after| && after[..|configured|] == configured
      requires before + [Acquired(slot.context.value, None)] <= configured
      requires Configured(before + [Acquired(slot.context.value, None)], configured, slot.context.value, conf)
      requires Equipped(configured, after, conf, slot)
      ensures Initialised(before, after, conf, slot)
    {
      hide Configured, Equipped;
    }

    /** Releases the layers from the last to the first. */
    method UnwindLayers(num: nat, ghost base: multiset<Ref>) returns (ghost order: seq<nat>, ghost places: seq<nat>)
      requires core.Valid() && num <= |layers| && core.live == base + LayerRefs(layers)
      requires forall i :: 0 <= i < |layers| ==> layers[i].Valid() && (i >= num ==> layers[i].context.None?)
      modifies this`layers, core
      ensures core.Valid() && core.listener == old(core.listener) && core.live == base && |layers| == old(|layers|)
      ensures forall i :: 0 <= i < |layers| ==> layers[i].context.None?
      ensures core.fatal == old(core.fatal)
      // every context there was is given back, a later layer's before an earlier one's
      ensures forall i :: 0 <= i < num && old(layers)[i].context.Some? ==> i in order
      ensures |places| == |order| && forall k :: 0 <= k < |order| ==>
        && order[k] < num && old(layers)[order[k]].context.Some? && places[k] < |core.log|
        && core.log[places[k]] == Released(old(layers)[order[k]].context.value)
      ensures forall j, k :: 0 <= j < k < |order| ==> order[k] < order[j] && places[j] < places[k]
    {
      hide Core.Valid, SlotRefs, LayerRefs;
      order, places := [], [];
      var i := num;
      while i > 0
        invariant 0 <= i <= num && |layers| == old(|layers|) && core.Valid() && core.live == base + LayerRefs(layers)
        invariant core.listener == old(core.listener) && core.fatal == old(core.fatal)
        invariant forall k :: 0 <= k < |layers| ==> layers[k].Valid() && (k >= i ==> layers[k].context.None?)
        invariant forall k :: 0 <= k < i ==> layers[k] == old(layers)[k]
        invariant forall k :: i <= k < num && old(layers)[k].context.Some? ==> k in order
        invariant |places| == |order| && forall k :: 0 <= k < |order| ==>
          && i <= order[k] < num && old(layers)[order[k]].context.Some? && places[k] < |core.log|
          && core.log[places[k]] == Released(old(layers)[order[k]].context.value)
        invariant forall j, k :: 0 <= j < k < |order| ==> order[k] < order[j] && places[j] < places[k]
      {
        i := i - 1;
        if layers[i].context.Some? {
          UnwindLayer(i, base);
          order, places := order + [i], places + [|core.log| - 1];
        }
      }
      NoContextsNoRefs(layers);
      Nothing(base);
    }

    method UnwindLayer(i: nat, ghost base: multiset<Ref>)
      requires core.Valid() && i < |layers| && layers[i].Valid() && layers[i].context.Some?
      requires core.live == base + LayerRefs(layers)
      modifies this`layers, core
      ensures core.Valid() && core.listener == old(core.listener) && core.fatal == old(core.fatal)
      ensures core.live == base + LayerRefs(layers) && layers == old(layers)[i := old(layers)[i].(context := None)]
      ensures old(core.log) < core.log && core.log[|core.log| - 1] == Released(old(layers)[i].context.value)
    {
      hide Core.Valid, SlotRefs, LayerRefs;
      var slot := layers[i];
      var cleared := layers[i := slot.(context := None)];
      LayerRefsUpdate(cleared, i, slot);
      assert cleared[i := slot] == layers;
      Associate(base, LayerRefs(cleared), SlotRefs(slot));
      ReleaseSlot(slot, base + LayerRefs(cleared));
      layers := cleared;
    }

    /** Initialises one layer, if the core lets it. */
    method FillLayer(i: nat, conf: LayerConfig, ghost base: multiset<Ref>) returns (ok: bool, ghost slot: Slot)
      requires ContextsHeld() && i < |layers| && layers[i].context.None? && core.live == base + LayerRefs(layers)
      modifies this`layers, core
      ensures ContextsHeld() && core.listener == old(core.listener) && core.live == base + LayerRefs(layers)
      ensures slot.Valid() && (slot.context.Some? <==> ok) && layers == old(layers)[i := slot]
      ensures (ok <==> core.fatal == old(core.fatal)) && core.fatal >= old(core.fatal)
      ensures ok ==> core.answers(|old(core.log)|)
      ensures ok ==> Initialised(old(core.log), core.log, conf, slot) && old(core.log) <= core.log
    {
      hide Core.Valid, SlotRefs, Initialised;
      var filled := InitLayer(conf);
      LayerRefsUpdate(layers, i, filled);
      Associate(base, LayerRefs(layers), SlotRefs(filled));
      layers := layers[i := filled];
      ok, slot := filled.context.Some?, filled;
    }

    /** A layer was initialised by the calls from its context's place on to `end`. */
    ghost predicate Filled(log: seq<Call>, conf: LayerConfig, slot: Slot, end: nat) {
      && slot.context.Some? && slot.context.value.id < end <= |log|
      && Initialised(log[..slot.context.value.id], log[..end], conf, slot)
    }

    lemma FilledStays(log: seq<Call>, more: seq<Call>, conf: LayerConfig, slot: Slot, end: nat)
      requires log <= more && Filled(log, conf, slot, end)
      ensures Filled(more, conf, slot, end)
    {
      hide Initialised;
      assert more[..slot.context.value.id] == log[..slot.context.value.id] && more[..end] == log[..end];
    }

    lemma FilledNow(before: seq<Call>, after: seq<Call>, conf: LayerConfig, slot: Slot)
      requires Initialised(before, after, conf, slot) && before <= after
      ensures Filled(after, conf, slot, |after|) && slot.context.value.id == |before|
    {
      assert after[..|before|] == before && after[..|after|] == after;
      hide Configured, Equipped;
    }

    /** What that means for the configuration of the layer, call by call. */
    lemma FilledIsConfigured(log: seq<Call>, conf: LayerConfig, slot: Slot, end: nat)
      requires Filled(log, conf, slot, end)
      ensures slot.region.Some? && slot.surface.Some?
      ensures
        var c, r, s := slot.context.value, slot.region.value, slot.surface.value;
        var (flags, mode) := Negotiated(conf, c.id + 1, core.answers, core.failing);
        && c.id + 1 < r.id < s.id < end
        && log[c.id] == Acquired(c, None) && log[r.id - 1] == Told(c, GetConfiguration)
        && log[r.id] == Acquired(r, Some(c)) && log[s.id] == Acquired(s, Some(r))
        && (flags != {} ==>
              c.id + 1 < r.id - 1 && log[r.id - 2] == Used(c, SetConfiguration(flags, mode), true) &&
              Unconfigured(log, c.id, r.id - 2))
        && (flags == {} ==> Unconfigured(log, c.id, r.id))
    {
      var from := slot.context.value.id;
      assert log[..from] + [Acquired(slot.context.value, None)] <= log[..end];
      hide BackgroundLog, Negotiated;
    }

    /**
      On success every layer to be initialised holds one context, region and
      surface; on failure everything acquired so far is given back.
     */
    method InitLayers(confs: seq<LayerConfig>)
      returns (ok: bool, ghost ends: map<nat, nat>, ghost order: seq<nat>)
      requires ContextsHeld() && |confs| <= |layers|
      requires forall i :: 0 <= i < |layers| ==> layers[i].context.None?
      modifies this`layers, core
      ensures core.Valid() && core.listener == old(core.listener)
      ensures |layers| == old(|layers|) && forall i :: 0 <= i < |layers| ==> layers[i].Valid()
      ensures core.live == old(core.live) + LayerRefs(layers)
      ensures ok ==> forall i :: 0 <= i < |layers| ==> (layers[i].context.Some? <==> i < |confs| && confs[i].init)
      ensures !ok ==> core.live == old(core.live) && forall i :: 0 <= i < |layers| ==> layers[i].context.None?
      ensures (ok <==> core.fatal == old(core.fatal)) && core.fatal >= old(core.fatal)
      ensures ok && AnyInit(confs) ==> core.answers(|old(core.log)|)
      // one layer after the other is configured and equipped
      ensures ok ==> old(core.log) <= core.log && |order| <= |core.log|
      ensures ok ==> forall i :: 0 <= i < |confs| && confs[i].init ==>
        i in ends && ends[i] <= |core.log| - |order| && Filled(core.log, confs[i], layers[i], ends[i])
      ensures ok ==> forall i, j :: 0 <= i < j < |confs| && confs[i].init && confs[j].init ==>
        ends[i] <= layers[j].context.value.id
      // its configuration is set, and accepted, after its context was taken and before its region is
      ensures ok ==> forall i :: 0 <= i < |confs| && confs[i].init ==>
        && layers[i].region.Some?
        && var c, r := layers[i].context.value, layers[i].region.value;
        var (flags, mode) := Negotiated(confs[i], c.id + 1, core.answers, core.failing);
        && c.id + 1 < r.id < |core.log|
        && core.log[c.id] == Acquired(c, None) && core.log[r.id] == Acquired(r, Some(c))
        && (flags != {} ==> core.log[r.id - 2] == Used(c, SetConfiguration(flags, mode), true))
        && (flags == {} ==> Unconfigured(core.log, c.id, r.id))
      // after all that, every one of them is activated once, in order
      ensures ok ==> forall i :: 0 <= i < |confs| && confs[i].init ==> i in order
      ensures ok ==> forall k :: 0 <= k < |order| ==>
        && order[k] < |confs| && confs[order[k]].init
        && core.log[|core.log| - |order| + k] == Told(layers[order[k]].context.value, Activate)
      ensures ok ==> forall j, k :: 0 <= j < k < |order| ==> order[j] < order[k]
    {
      hide Core.Valid, SlotRefs, LayerRefs, Filled;
      order := [];
      ok, ends := FillLayers(confs);
      if !ok {
        return;
      }
      ghost var log := core.log;
      order := ActivateLayers(|confs|, old(core.live));
      StillFilled(log, core.log, confs, layers, ends);
      hide Negotiated, Unconfigured;
    }

    /** Initialises the layers one after the other; when one cannot be, all go back. */
    method FillLayers(confs: seq<LayerConfig>) returns (ok: bool, ghost ends: map<nat, nat>)
      requires ContextsHeld() && |confs| <= |layers|
      requires forall i :: 0 <= i < |layers| ==> layers[i].context.None?
      modifies this`layers, core
      ensures core.Valid() && core.listener == old(core.listener)
      ensures |layers| == old(|layers|) && core.live == old(core.live) + LayerRefs(layers)
      ensures ok ==> forall i :: 0 <= i < |layers| ==>
        layers[i].Valid() && (layers[i].context.Some? <==> i < |confs| && confs[i].init)
      ensures !ok ==> core.live == old(core.live) && forall i :: 0 <= i < |layers| ==> layers[i].context.None?
      ensures (ok <==> core.fatal == old(core.fatal)) && core.fatal >= old(core.fatal)
      ensures ok && AnyInit(confs) ==> core.answers(|old(core.log)|)
      ensures ok ==> old(core.log) <= core.log && AllFilled(core.log, confs, layers, |confs|, ends)
    {
      hide Core.Valid, SlotRefs, LayerRefs, AllFilled, Initialised;
      ends := map[];
      ghost var base := core.live;
      NoContextsNoRefs(layers);
      Nothing(base);
      NoneFilled(core.log, confs, layers, ends);
      for i := 0 to |confs|
        invariant core.Valid() && |layers| == old(|layers|) && core.live == base + LayerRefs(layers)
        invariant core.listener == old(core.listener) && core.fatal == old(core.fatal) && ContextsHeld()
        invariant core.answers(|old(core.log)|) ||
          (core.log == old(core.log) && forall k :: 0 <= k < i ==> !confs[k].init)
        invariant forall k :: 0 <= k < |layers| ==>
          layers[k].Valid() && (layers[k].context.Some? <==> k < i && confs[k].init)
        invariant old(core.log) <= core.log && AllFilled(core.log, confs, layers, i, ends)
      {
        ghost var log, slots := core.log, layers;
        ghost var slot := EMPTY_SLOT;
        if confs[i].init {
          var filled;
          filled, slot := FillLayer(i, confs[i], base);
          if !filled {
            ghost var order, places := UnwindLayers(|confs|, base);
            NoContextsNoRefs(layers);
            return false, ends;
          }
          OneMoreFilled(log, core.log, confs, slots, i, ends, slot);
          ends := ends[i := |core.log|];
        } else {
          NoneMoreFilled(log, confs, layers, i, ends);
        }
      }
      return true, ends;
    }

    /** The first n layers, one after the other. */
    ghost predicate AllFilled(log: seq<Call>, confs: seq<LayerConfig>, slots: seq<Slot>, n: nat, ends: map<nat, nat>) {
      && n <= |confs| && n <= |slots|
      && (forall k :: 0 <= k < n && confs[k].init ==>
            k in ends && ends[k] <= |log| && Filled(log, confs[k], slots[k], ends[k]))
      && forall j, k :: 0 <= j < k < n && confs[j].init && confs[k].init ==>
           ends[j] <= slots[k].context.value.id
    }

    lemma NoneFilled(log: seq<Call>, confs: seq<LayerConfig>, slots: seq<Slot>, ends: map<nat, nat>)
      ensures AllFilled(log, confs, slots, 0, ends)
    {
    }

    lemma NoneMoreFilled(log: seq<Call>, confs: seq<LayerConfig>, slots: seq<Slot>, i: nat, ends: map<nat, nat>)
      requires i < |confs| && i < |slots| && !confs[i].init && AllFilled(log, confs, slots, i, ends)
      ensures AllFilled(log, confs, slots, i + 1, ends)
    {
      hide Filled;
    }

    lemma OneMoreFilled(log: seq<Call>, more: seq<Call>, confs: seq<LayerConfig>, slots: seq<Slot>, i: nat,
                        ends: map<nat, nat>, slot: Slot)
      requires i < |confs| && i < |slots| && log <= more && AllFilled(log, confs, slots, i, ends)
      requires Initialised(log, more, confs[i], slot)
      ensures AllFilled(more, confs, slots[i := slot], i + 1, ends[i := |more|])
    {
      FilledNow(log, more, confs[i], slot);
      hide Initialised;
      forall k | 0 <= k < i && confs[k].init ensures Filled(more, confs[k], slots[k], ends[k]) {
        FilledStays(log, more, confs[k], slots[k], ends[k]);
      }
      hide Filled;
    }

    /** What is known of the layers when all of them are filled, and something more was asked of the core. */
    lemma StillFilled(log: seq<Call>, more: seq<Call>, confs: seq<LayerConfig>, slots: seq<Slot>, ends: map<nat, nat>)
      requires log <= more && AllFilled(log, confs, slots, |confs|, ends)
      ensures forall i :: 0 <= i < |confs| && confs[i].init ==>
        i in ends && ends[i] <= |log| && Filled(more, confs[i], slots[i], ends[i])
      ensures forall i, j :: 0 <= i < j < |confs| && confs[i].init && confs[j].init ==>
        ends[i] <= slots[j].context.value.id
      ensures forall i :: 0 <= i < |confs| && confs[i].init ==>
        && slots[i].context.Some? && slots[i].region.Some?
        && var c, r := slots[i].context.value, slots[i].region.value;
        var (flags, mode) := Negotiated(confs[i], c.id + 1, core.answers, core.failing);
        && c.id + 1 < r.id < |more|
        && more[c.id] == Acquired(c, None) && more[r.id] == Acquired(r, Some(c))
        && (flags != {} ==> more[r.id - 2] == Used(c, SetConfiguration(flags, mode), true))
        && (flags == {} ==> Unconfigured(more, c.id, r.id))
    {
      hide Negotiated, Unconfigured, Initialised;
      forall i | 0 <= i < |confs| && confs[i].init
        ensures Filled(more, confs[i], slots[i], ends[i]) && slots[i].region.Some?
        ensures
          var c, r := slots[i].context.value, slots[i].region.value;
          var (flags, mode) := Negotiated(confs[i], c.id + 1, core.answers, core.failing);
          && c.id + 1 < r.id < |more|
          && more[c.id] == Acquired(c, None) && more[r.id] == Acquired(r, Some(c))
          && (flags != {} ==> more[r.id - 2] == Used(c, SetConfiguration(flags, mode), true))
          && (flags == {} ==> Unconfigured(more, c.id, r.id))
      {
        FilledStays(log, more, confs[i], slots[i], ends[i]);
        FilledIsConfigured(more, confs[i], slots[i], ends[i]);
      }
    }

    /** Every layer with a context is activated once, in order. */
    method ActivateLayers(num: nat, ghost base: multiset<Ref>) returns (ghost order: seq<nat>)
      requires core.Valid() && num <= |layers| && core.live == base + LayerRefs(layers)
      modifies core
      ensures core.Valid() && core.listener == old(core.listener) && core.live == old(core.live)
      ensures core.fatal == old(core.fatal)
      ensures old(core.log) <= core.log && |core.log| == |old(core.log)| + |order|
      ensures forall i :: 0 <= i < num && layers[i].context.Some? ==> i in order
      ensures forall k :: 0 <= k < |order| ==>
        && order[k] < num && layers[order[k]].context.Some?
        && core.log[|old(core.log)| + k] == Told(layers[order[k]].context.value, Activate)
      ensures forall j, k :: 0 <= j < k < |order| ==> order[j] < order[k]
    {
      hide Core.Valid, SlotRefs;
      order := [];
      for i := 0 to num
        invariant core.Valid() && core.live == base + LayerRefs(layers) && core.listener == old(core.listener)
        invariant core.fatal == old(core.fatal)
        invariant old(core.log) <= core.log && |core.log| == |old(core.log)| + |order|
        invariant forall k :: 0 <= k < i && layers[k].context.Some? ==> k in order
        invariant forall k :: 0 <= k < |order| ==>
          && order[k] < i && layers[order[k]].context.Some?
          && core.log[|old(core.log)| + k] == Told(layers[order[k]].context.value, Activate)
        invariant forall j, k :: 0 <= j < k < |order| ==> order[j] < order[k]
      {
        if layers[i].context.Some? {
          LayerHolds(layers, i, base);
          core.Tell(layers[i].context.value, Activate);
          order := order + [i];
        }
      }
    }

    /** The layers of the master, and the books with them. */
    method SetUpLayers(confs: seq<LayerConfig>) returns (ok: bool)
      requires core.Valid() && core.listener.None? && context.Some? && core.live == One(context)
      requires |confs| <= |layers| && handedOut == multiset{}
      requires window.None? && primaryContext.None? && forall i :: 0 <= i < |layers| ==> layers[i].context.None?
      modifies this`layers, core
      ensures core.Valid() && core.listener == old(core.listener) && |layers| == old(|layers|)
      ensures ok ==> Accounts(None) && forall i :: 0 <= i < |layers| ==> layers[i].Valid()
      ensures !ok ==> core.live == One(context)
      ensures (ok <==> core.fatal == old(core.fatal)) && core.fatal >= old(core.fatal)
      ensures ok && AnyInit(confs) ==> core.answers(|old(core.log)|)
    {
      hide Core.Valid, Balanced, LayerRefs;
      assert ContextsHeld();
      hide One;
      ghost var ends, order;
      ok, ends, order := InitLayers(confs);
      if ok {
        Opened(core.live, context, layers, handedOut);
        var _ := core.Consult();
      }
    }

    /** What the constructor leaves to the core's thread; the application waits for it to finish. */
    method InitAsync(master: bool, confs: seq<LayerConfig>)
      requires core.Valid() && Blank() && core.listener.None? && core.live == multiset{}
      requires handedOut == multiset{} && !initDone
      requires |confs| <= MAX_LAYERS
      modifies this`context, this`layers, this`initDone, core
      ensures core.Valid() && core.listener == old(core.listener)
      ensures initDone ==> Valid()
      ensures !initDone ==> core.live == One(context)
      ensures (initDone <==> core.fatal == old(core.fatal)) && core.fatal >= old(core.fatal)
      ensures context == if core.answers(|old(core.log)|) then Some(Ref(CONTEXT, |old(core.log)|)) else None
      ensures !master ==> (initDone <==> core.answers(|old(core.log)|))
      ensures master && initDone && AnyInit(confs) ==> core.answers(|old(core.log)| + 1)
      ensures context.None? ==> core.log == old(core.log) + [Refused(CONTEXT, None)]
    {
      hide Core.Valid, Balanced, LayerRefs;
      context := core.Acquire(CONTEXT, None);
      if context.None? {
        return;
      }
      Nothing(multiset{context.value});
      if master {
        initDone := SetUpLayers(confs);
      } else {
        NoContextsNoRefs(layers);
        Opened(core.live, context, layers, handedOut);
        initDone := true;
      }
    }

    method ReleaseLayers(ghost rest: multiset<Ref>)
      requires core.Valid() && core.live == rest + LayerRefs(layers)
      requires forall i :: 0 <= i < |layers| ==> layers[i].Valid()
      modifies core
      ensures core.Valid() && core.listener == old(core.listener) && core.live == rest
      ensures old(core.log) <= core.log
    {
      hide Core.Valid, SlotRefs;
      assert layers[0..] == layers;
      for i := 0 to |layers|
        invariant core.Valid() && core.live == rest + LayerRefs(layers[i..]) && core.listener == old(core.listener)
        invariant old(core.log) <= core.log
      {
        ghost var slot, others := SlotRefs(layers[i]), LayerRefs(layers[i + 1..]);
        LayerRefsFront(layers[i..]);
        assert layers[i..][1..] == layers[i + 1..];
        NoContextNoRefs(layers[i]);
        hide LayerRefs;
        Associate(rest, slot, others);
        Swap(rest, slot, others);
        Nothing(rest + others);
        if layers[i].context.Some? {
          ReleaseSlot(layers[i], rest + others);
        }
      }
      Nothing(rest);
    }

    /** The end of a session: all references it holds go back, and only what the application holds stays out. */
    method Destruct()
      requires Valid()
      modifies this`window, this`focused, core
      ensures core.Valid() && core.listener.None? && core.live == handedOut
      ensures old(window).Some? ==>
        var dropped := [Told(old(window).value, Detach), Released(old(window).value)] +
          if config.cursorAutomation then [Cursor(false)] else [];
        old(core.log) + dropped <= core.log
    {
      hide Core.Valid, Balanced, LayerRefs;
      DropWindow(false, None);
      if primaryContext.Some? {
        PrimaryOut(core.live, context, None, primaryContext.value, layers, handedOut);
        core.Release(primaryContext.value);
      }
      ContextOut(core.live, context.value, None, None, layers, handedOut);
      core.Release(context.value);
      OnlyLayers(core.live, layers, handedOut);
      ReleaseLayers(handedOut);
    }
  }
}
