# A verified model of DirectFB's session, blending, geometry and image tools

DirectFB is a graphics library; this project models the parts of it that decide something
hard to see from one function, and proves what they are for:

- **The C source writer** (`CLiteral.dfy`, `CSourceWriter.dfy`). `directfb-csource` prints bytes
  as adjacent C string literals. An independent reader of such literals, following ISO C11
  (longest-match escapes of section 6.4.4.4, resolved before adjacent literals are joined,
  section 5.1.1.2 phases 5 and 6, section 6.4.5), reads back exactly the bytes, and no line is
  longer than 76 columns. The reader gives the characters of the literal; the NUL that C appends
  to an initialiser is not counted.
- **The atlas packer** (`AtlasPacker.dfy`) of the same tool: images side by side in one buffer.
- **The packed ditherer** (`Dither.dfy`): three channels in 10-bit lanes of one word equal three
  separate computations.
- **The session** (`CoreLedger.dfy`, `Books.dfy`, `SurfaceCalls.dfy`, `Session.dfy`,
  `SessionRuns.dfy`): the main interface with its level, window, fullscreen context, focus and
  layers, against a core any call of which may fail. Every call is logged with the core's answer;
  references are judged on whole logs, and outcomes are stated by the answers.
- **Input** (`InputFilter.dfy`, `Hotplug.dfy`): the two event filters, and which buffers are
  attached to which devices over all runs of creating, destroying, plugging and unplugging.
- **The reference blender** (`Bits.dfy`, `Blitter.dfy`) of `dfbfx`, and runs of blits.
- **Rectangles, regions and boxes** (`Geometry.dfy`) as three views of one set of points.
- **The chunk painter** (`ChunkPainter.dfy`) of `dfbsummon`.
- **The list options** (`OptionLists.dfy`) of `dfbscreen`.

`Basics.dfy`, `Arithmetic.dfy` and `Permutations.dfy` hold what several of these share.

Where the code changes state, the model does: `CSourceData`, `Surface`, `IDirectFB`, `InputHub`,
`DFBRectangle`, `DFBRegion`, `DFBBox` and `AnyOption` are classes, buffers are arrays, and loops are loops.
The core, the allocator and shifts that C leaves undefined are oracles: functions or flags the
theorems quantify over. `Core.answers` decides for every place of the log whether the call succeeds,
`Core.layouts` how a layer turns out to be configured.

## Where the code does not do what one would expect

The model keeps the code as it is; each of these is proved with its exact condition and at an input:
`Hotplug.LateDevice`, `Geometry.EmptyRectangleHits`, `Geometry.TouchingMissed`,
`Geometry.InPlaceGoesWrong`, `Blitter.DemultiplyTruncates`, the white source in
`Blitter.PremultipliedSourcesExactly`, `InputFilter.MarkedEventBreaksIt`, `SessionRuns.ToldBoth` and
`SessionRuns.LeakingStart`.

- Enumeration takes an input device without capabilities for one that has all of them
  (src/core/input.c:834-842), plugging one in does not (src/idirectfb.c:205-216). The documented
  promise of `CreateInputEventBuffer` (include/directfb.h:2020-2033) is kept in exactly the states
  without such a late device: `Hotplug.PromiseExactly`.
- `dfb_rectangle_box_intersect` never looks whether the rectangle is empty and reports a hit for an
  empty rectangle whose sides cross a box; the box forms do not: `Geometry.DFBRectangle.BoxIntersect`.
- `dfb_region_region_extends` subtracts one on both sides, so of two touching regions it sees only
  the pair in one order: `Geometry.RegionExtendsSeesOneSide`, `Geometry.RegionExtendsExactly`.
- The `from_rotated` functions read their source after writing the result, so rotating in place is
  right only for the values that `RotatesInPlace` of each form names: the `FromRotated` contracts.
- `DSBLIT_DEMULTIPLY` stores quotients in a byte; they fit exactly for premultiplied pixels:
  `Blitter.DemultiplyIsExact`; after blits over premultiplied pixels they always do:
  `Blitter.DemultiplyNeverTruncates`. `DSBLIT_BLEND_COLORALPHA` can make a premultiplied source cease to
  be one: `Blitter.PremultipliedSourcesExactly`.
- The local filter's stream is the global one without marked events exactly when nothing arrives
  marked while there is focus: `InputFilter.LocalIsGlobalUnmarked`.
- Asked for both double and triple buffering, every surface is told which one it got, except a
  primary in a window, which is told both (src/idirectfb.c:817-822, 883-886):
  `Session.IDirectFB.GrantsOneBuffering`.
- When the start of a session fails after its first context was taken, that context stays out:
  nobody is told, and the application waits (src/idirectfb.c:2014-2027, 2125-2126). A start fails
  exactly when the core refuses a context, a layer's configuration, its region or the region's
  surface: `Session.IDirectFB.InitAsync`, `SessionRuns.Run`.

## Model

| member | source | states |
|---|---|---|
| CSourceWriter.EscapeAdds | tools/directfb-csource.c:701-706 | An octal escape is read back as its byte, and it can still be lengthened exactly for values below 64: the value `pad` gets. |
| CSourceWriter.OctalDigits | tools/directfb-csource.c:702 | The digits of an octal escape: as few as the byte needs. |
| CSourceWriter.CharAdds | tools/directfb-csource.c:715-722 | Printing a character as itself is right exactly when no short octal escape would swallow it. |
| CSourceWriter.CSourceData.SaveUchar | tools/directfb-csource.c:692-726 | One byte more is read back, `pad` holds exactly when the literal ends in an octal escape of fewer than three digits, and `pos` is the true column; the exact text printed: a split only for a digit behind a short escape, a new line only past column 70. |
| CSourceWriter.CSourceData.DumpData | tools/directfb-csource.c:728-743 | For every non-empty byte sequence the printed initialiser reads back as those bytes and no line exceeds 76 columns. |
| CLiteral.RunAppend | tools/directfb-csource.c:728-743 | The literal reader is incremental: reading two texts one after the other is reading their concatenation. |
| CLiteral.LongestMatch | tools/directfb-csource.c:701-706 | The reader ends an octal escape after three digits and not before, as section 6.4.4.4 of ISO C11 has it. |
| CLiteral.EscapesBeforeJoining | tools/directfb-csource.c:715-718 | It resolves escapes before it joins literals, which is why the split keeps a digit apart. |
| CLiteral.OtherEscapes | tools/directfb-csource.c:707-714 | It knows the letters and hexadecimal escapes of the standard. |
| CLiteral.TooLarge | tools/directfb-csource.c:701-706 | It rejects an escape of more than a byte. |
| CLiteral.WidthIsLongestLine | tools/directfb-csource.c:695-700 | The width bounded above is the longest line: reached by some prefix and exceeded by none. |
| AtlasPacker.SpansDisjoint | tools/directfb-csource.c:641-655 | Byte spans inside the pitch never overlap when in different rows or side by side. |
| AtlasPacker.LayoutIsDisjoint | tools/directfb-csource.c:596-626 | Every rectangle, also a lone one, is inside the surface in width and height, and no two overlap. |
| AtlasPacker.RectanglesFollow | tools/directfb-csource.c:604-623 | With two or more bytes per pixel images stand without a gap, with one each starts at the least multiple of four behind the one before, and so the width ends. |
| AtlasPacker.PixelSizes | include/directfb.h:1188-1285 | How many bytes per pixel the formats have. |
| AtlasPacker.CopyRows | tools/directfb-csource.c:645-654 | All rows of an image reach their place and no row of an image further left is disturbed, every copy in bounds. |
| AtlasPacker.LayOut | tools/directfb-csource.c:593-626 | Fails exactly on a second pixel format; otherwise rectangles, width and height are the layout's. |
| AtlasPacker.MergeImages | tools/directfb-csource.c:582-661 | The two failures exactly; on success where every rectangle starts and what the width, height and pitch are, in plain numbers, and every image is in its rectangle of the buffer byte for byte. |
| AtlasPacker.BytesArrive | tools/directfb-csource.c:645-654 | Which byte of the buffer is which byte of an image. |
| AtlasPacker.TallestIsMaximum | tools/directfb-csource.c:624-625 | The height of the surface is the largest of the images. |
| AtlasPacker.LeftAligned | tools/directfb-csource.c:603-606 | Images with one byte per pixel start on word boundaries. |
| Dither.SumHasNoCarry | tools/directfb-csource.c:670-674 | Adding any dither word of the allowed range carries nothing between lanes. |
| Dither.CorrectionHasNoBorrow | tools/directfb-csource.c:675-677 | Scaling back borrows nothing between lanes and leaves a bias of 256 in each. |
| Dither.PackedIsPerChannel | tools/directfb-csource.c:669-682 | The packed computation is the plain one per channel, for every pixel and every dither word in range. |
| Dither.ChannelsWrittenOut | tools/directfb-csource.c:669-674 | The channels of a pixel and of a dither word, in shifts and masks. |
| Dither.LevelsWrittenOut | tools/directfb-csource.c:675-682 | The plain computation of one channel. |
| Dither.PixelWrittenOut | tools/directfb-csource.c:680-682 | Three channels as one 5-6-5 pixel. |
| Dither.PixelFits | tools/directfb-csource.c:678-682 | A packed pixel fits its 16 bits, so storing it truncates nothing. |
| Dither.BoundIsTight | tools/directfb-csource.c:674-682 | The range of dither values is the largest that keeps every channel in its bits. |
| Dither.SimpleMatrix | src/misc/dither565.h:194-210 | The simple table is eight by eight and stays in that range. |
| Dither.SimpleTable | src/misc/dither565.h:201-210 | Its words, one by one. |
| Dither.MatrixRepeats | tools/directfb-csource.c:666-674 | Every word of a table is the word of its own column and row, and the table repeats in both directions. |
| Dither.WordAt | tools/directfb-csource.c:666-674 | Which word of the table a pixel gets. |
| Dither.DitherRgb16 | tools/directfb-csource.c:663-683 | Every pixel of a row is dithered with the word `words[(y % height) * width + x % width]` of the table; nothing behind the row is written. |
| CoreLedger.CleanLog | src/idirectfb.c:280-317 | In a log without misuse a reference that is out was never released, and one that is not out was released once and never named again. |
| CoreLedger.FatalsAreRefusals | src/idirectfb.c:1857-1943 | What a start does not survive are refusals of the core: of a context, of a layer's configuration, of its region or of the region's surface. |
| Session.IDirectFB.DropWindow | src/idirectfb.c:2339-2353 | Detaches, releases and forgets the window, in that order, clears the focus, and moves the cursor as configured. |
| Session.IDirectFB.FocusListener | src/idirectfb.c:2259-2286 | Destruction releases the window once and ends listening; focus follows the event. |
| Session.IDirectFB.SetCooperativeLevel | src/idirectfb.c:345-402 | Keeps the session valid (level NORMAL iff no fullscreen context, no window outside NORMAL, every reference owned once); for which levels and which answers of the core it fails; a failed call changes nothing and keeps nothing; what the core is asked for. |
| Session.IDirectFB.SetVideoMode | src/idirectfb.c:464-523 | Resizes the window or configures the fullscreen context, which is there whenever it is used; fails exactly for bad arguments or when the core refuses; a failed call changes nothing. |
| Session.IDirectFB.ClimbDown | src/idirectfb.c:940-966 | The mode is the first of the ladder the core says yes to, by its answers at those places of the log; without one every step was asked for and refused. |
| Session.IDirectFB.ConfigureFullscreen | src/idirectfb.c:894-973 | By the modes in the log: TRIPLE first for triple buffering, BACKVIDEO or BACKSYSTEM for double, FRONTONLY for neither; a refusal ends it with SYSTEMONLY or VIDEOONLY, and otherwise BACKVIDEO follows TRIPLE, BACKSYSTEM follows BACKVIDEO and nothing follows the rest; the first yes is taken; every request has the same size, format and options, and the caps granted never hold both DOUBLE and TRIPLE. |
| SurfaceCalls.Descent | src/idirectfb.c:917-966 | The order of the requests, read off the log. |
| Session.IDirectFB.FullscreenPrimary | src/idirectfb.c:893-1032 | For which answers it succeeds; then the core saw the refused modes, the accepted one, then region, surface, palette and interface in order, with the caps of the accepted mode and everything but the interface given back; whatever fails, no region, surface or palette reference is left. |
| Session.IDirectFB.LayerPrimary | src/idirectfb.c:975-1031 | The part behind the ladder, call by call, and for which answers it succeeds. |
| Session.IDirectFB.PrimaryById | src/idirectfb.c:699-719 | The calls by which a surface with a configured id becomes the primary; here alone the palette is set after the interface is made. |
| Session.IDirectFB.PlainSurface | src/idirectfb.c:764-798 | The calls by which a surface is made, given its palette, wrapped, shown as background if it is the desktop's, and given back; for which answers it comes about. |
| Session.IDirectFB.CheckBuffers | src/idirectfb.c:1047-1065 | Preallocated buffers are accepted exactly when as many as the surface will have are there and wide enough. |
| Session.IDirectFB.OtherSurface | src/idirectfb.c:1036-1110 | Refused exactly for bad buffers, before the core is asked; else the calls for a surface of the size and format asked for, with at most one kind of buffering. |
| Session.IDirectFB.GrantsOneBuffering | src/idirectfb.c:801-892 | Only a primary in a window can be told that it has both double and triple buffering, and exactly when it asked for both. |
| Session.IDirectFB.WindowPrimary | src/idirectfb.c:800-892 | The new window replaces the old one, listened to and owned, also when the interface cannot be made; on success every call in order, from the new window over the end of the old one to palette and interface. |
| Session.IDirectFB.CreateSurface | src/idirectfb.c:545-1111 | Which descriptions are refused and, for every other, for exactly which answers of the core a surface comes about; success hands out one interface and failure none; only a windowed primary touches the window; which size and format a primary asks for, which caps any surface is handed out with, and that its palette is set before the interface exists, but for the primary with a configured id. |
| Session.IDirectFB.MakeSurface | src/idirectfb.c:698-1111 | The size and format any surface asks the core for, primary or not, in terms of description, video mode, configuration and layer. |
| Session.IDirectFB.LayoutWrittenOut | src/idirectfb.c:577-660 | The same as a fact about description and session alone. |
| Session.IDirectFB.AskedWrittenOut | src/idirectfb.c:577-584 | The capabilities a description stands for. |
| Session.IDirectFB.CasesWrittenOut | src/idirectfb.c:698-770 | Which descriptions are for a primary, for a window, unsupported or refused. |
| Session.IDirectFB.AcceptableWrittenOut | src/idirectfb.c:594-696 | Which descriptions are refused whatever the surface is for. |
| Session.IDirectFB.BuffersWrittenOut | src/idirectfb.c:1036-1065 | Which preallocated buffers a surface is refused for. |
| SurfaceCalls.CapsWrittenOut | src/idirectfb.c:817-822 | What becomes of the capabilities of a window and of a plain surface. |
| Session.IDirectFB.WillingServes | src/idirectfb.c:545-1111 | A core that refuses nothing serves every request for a surface. |
| SurfaceCalls.PaletteOrderIs | src/idirectfb.c:525-543 | Setting a palette lies on one side of the interface in every log it is part of, and happens exactly when one is asked for. |
| SurfaceCalls.AskedFirst | src/idirectfb.c:936-960 | All attempts for a fullscreen primary ask for one size and format. |
| SurfaceCalls.ServedByFirst | src/idirectfb.c:940-966 | Only the first mode the core says yes to decides whether a fullscreen primary comes about. |
| Session.IDirectFB.InitPalette | src/idirectfb.c:525-543 | The palette is taken, set and given back, or refused and nothing else happens. |
| Session.IDirectFB.NegotiateConfiguration | src/idirectfb.c:1870-1912 | Which parts of a layer configuration survive the tests, when the system buffer is tried, and which tests the core is asked for. |
| Session.IDirectFB.NegotiatedIs | src/idirectfb.c:1870-1912 | The outcome as a function of the core's answers. |
| Session.IDirectFB.LoadBackgroundImage | src/idirectfb.c:1757-1809 | Provider and image are given back on every path, and what is done with them, in order. |
| Session.IDirectFB.RenderBackground | src/idirectfb.c:1792-1808 | A picture that could be rendered becomes the background after its provider is given back; one that could not does not. |
| Session.IDirectFB.SetBackground | src/idirectfb.c:1956-1972 | A colour is set as colour and index, a picture loaded, and the mode set in any case. |
| Session.IDirectFB.CreatePalette | src/idirectfb.c:1811-1838 | The palette of a layer is kept exactly when it could be made and set. |
| Session.IDirectFB.EquippedInOrder | src/idirectfb.c:1923-1974 | The calls for an initialised layer by their places in the log. |
| Session.IDirectFB.SharedSurface | src/idirectfb.c:1783-1789 | The picture's surface is handed out as shared and as nothing else. |
| Session.IDirectFB.FillLayer | src/idirectfb.c:1850-1974 | A layer is either configured and filled with all it takes, call by call, or left without a context, and what the session holds grows by just that. |
| Session.IDirectFB.UnwindLayers | src/idirectfb.c:1987-2001 | Releases exactly what the initialised layers hold, later layers before earlier ones, and leaves no context set. |
| Session.IDirectFB.InitLayers | src/idirectfb.c:1840-2002 | For every number of layers and every failure point: it succeeds exactly when the core refuses nothing a layer needs; then exactly the chosen layers hold a context, region and surface, each was configured, unless nothing was left to configure, between its context and its region, one layer after the other, and after all of them each was activated once, in order; on failure everything is given back, the half-built layer included. |
| Session.IDirectFB.FilledIsConfigured | src/idirectfb.c:1860-1935 | What the log holds for a filled layer: context, accepted configuration, region, surface. |
| Session.IDirectFB.ActivateLayers | src/idirectfb.c:1980-1983 | Every layer with a context is activated once, in order. |
| Session.IDirectFB.InitAsync | src/idirectfb.c:2006-2041 | The session gets ready exactly when the core refuses nothing it needs, without layers exactly when it is given its first context; when it does, it is valid; otherwise that context is out if it was given. |
| Session.IDirectFB.Destruct | src/idirectfb.c:280-317 | After it only the application's interfaces are out and nothing is listened to; the window goes first, and the cursor with it as configured. |
| Books.LayerRefsUpdate | src/idirectfb.c:1977-1981 | Filling a layer adds exactly its references to what the session holds. |
| SessionRuns.Run | src/idirectfb.c:280-317 | Over every run of calls, window events and core failures, each reference the session took is released exactly once and never used after; only interfaces the application keeps are out. After a failed start, of which a refusal was the cause, exactly the first context is out, if it was given. |
| SessionRuns.LeakingStart | src/idirectfb.c:2014-2027 | A start that fails at its first layer and leaves its context out. |
| SessionRuns.ToldBoth | src/idirectfb.c:800-892 | A windowed primary that is told it has both double and triple buffering. |
| SessionRuns.PrimaryInMode | src/idirectfb.c:464-523 | A video mode that was accepted is what the next primary asks the core for, in a window, on the desktop or in fullscreen, unless its description says otherwise. |
| Session.IDirectFB.InputFilterLocal | src/idirectfb.c:2288-2321 | Drops input exactly without focus, and moves the cursor as configured otherwise. |
| Session.IDirectFB.InputFilterGlobal | src/idirectfb.c:2323-2337 | Drops nothing, sets the mark of input that arrives without focus, and changes nothing else about an event. |
| InputFilter.LocalIsGlobalUnmarked | src/idirectfb.c:2288-2337 | Over every run of focus changes and events the local stream is the unmarked part of the global one exactly when nothing arrives marked with focus; the global filter drops nothing. |
| InputFilter.MarkedEventBreaksIt | src/idirectfb.c:2288-2337 | One event that arrives marked with focus is in the one stream and not in the other. |
| Hotplug.InputHub.CreateBuffer | src/idirectfb.c:1345-1380 | A new buffer is attached once to every device enumeration matches; every other attachment stays as the invariant says. |
| Hotplug.InputHub.PlugIn | src/idirectfb.c:200-219 | A new device is attached once to every buffer that shares a capability and to no other. |
| Hotplug.InputHub.Unplug | src/idirectfb.c:221-233 | Afterwards no buffer is attached to the device, and all other attachments are kept. |
| Hotplug.InputHub.RemoveBuffer | src/idirectfb.c:255-270 | Only the given buffer leaves the list. |
| Hotplug.PromiseExactly | src/idirectfb.c:185-270 | The documented attachment holds in exactly the states without a device of no capabilities that came after a buffer for keys, axes or buttons. |
| Hotplug.AttachmentsWrittenOut | src/idirectfb.c:200-219 | Which device is attached to which buffer, in capability bits and the order they came in. |
| Hotplug.LateDevice | src/idirectfb.c:200-219 | A run of two steps into such a state, where the promise is broken. |
| Hotplug.Run | src/idirectfb.c:185-270 | Over every run of steps each buffer is attached exactly once to each device that shares a capability with it, an early device without any counting as one with all, and to no other. |
| Blitter.BlitPixel | tools/dfbfx.c:56-345 | The pipeline that updates its pixels in place, in whatever order, equals factors taken from the untouched source and destination. |
| Blitter.ApplySourceBlend | tools/dfbfx.c:139-220 | What each of the blend functions does to every channel of the source, in plain arithmetic. |
| Blitter.ApplyDestinationBlend | tools/dfbfx.c:222-313 | What each of them does to every channel of the destination, though that is its own factor. |
| Blitter.BlendArithmetic | tools/dfbfx.c:139-313 | The table of blend functions, for any colour. |
| Blitter.BlendSaturates | tools/dfbfx.c:315-321 | Both sides are added, up to 255. |
| Blitter.AlphaBlend | tools/dfbfx.c:132-322 | With SRCALPHA and INVSRCALPHA an opaque source is stored as it is and a transparent one leaves the destination. |
| Blitter.SourceModulated | tools/dfbfx.c:87-105 | Modulation by the global colour, in plain arithmetic. |
| Blitter.SourcePremultiplied | tools/dfbfx.c:107-125 | Premultiplication takes the modulated alpha, and after that the global one. |
| Blitter.DestinationPremultiplied | tools/dfbfx.c:121-125 | The destination is premultiplied with its own alpha. |
| Blitter.DemultiplyArithmetic | tools/dfbfx.c:324-329 | Demultiplication modulo 256. |
| Blitter.DemultiplyComesAfterBlend | tools/dfbfx.c:324-329 | It comes after everything but XOR. |
| Blitter.XorComesLast | tools/dfbfx.c:331-340 | XOR comes last and takes the destination as it was before any stage. |
| Blitter.KeysKeepDestination | tools/dfbfx.c:70-81 | The source key keeps the destination when it matches, the destination key when it does not. |
| Blitter.KeyIsColors | src/gfx/convert.h:93-96 | A key compares colours, not alpha. |
| Blitter.PremultipliedSourcesExactly | tools/dfbfx.c:87-125 | Exactly which flags and colours keep every premultiplied source premultiplied. |
| Blitter.OverBlends | tools/dfbfx.c:132-322 | With ONE and INVSRCALPHA the clamp never changes a value, the blend is premultiplied, and opaque stays opaque, whatever comes after the blend. |
| Blitter.OverKeepsPremultiplied | tools/dfbfx.c:56-345 | The same over any sequence of blits, each with a state of its own, with DST_PREMULTIPLY, colouring and keys on or off. |
| Blitter.DemultiplyNeverTruncates | tools/dfbfx.c:324-329 | After any such sequence a blit that demultiplies stores the whole quotients of a premultiplied pixel, and on an opaque destination the blended pixel itself. |
| Blitter.DemultiplyIsExact | tools/dfbfx.c:324-329 | The demultiplied colours fit their bytes exactly when the pixel is premultiplied. |
| Blitter.DemultiplyTruncates | tools/dfbfx.c:324-329 | A pixel that is not premultiplied and loses its quotient. |
| Blitter.InverseIsXor | tools/dfbfx.c:160-166 | The factor the source gets by exclusive or is the distance to 255. |
| Blitter.BlitAllIsSum | tools/dfbfx.c:66-137 | Without blending and destination key, a sequence of XOR blits, each with a state of its own, adds up to one exclusive or. |
| Blitter.XorTwiceRestores | tools/dfbfx.c:324-344 | Any such blits and then the same ones in any order restore the destination. |
| Bits.XorAssociates | tools/dfbfx.c:335-340 | Exclusive or, bit by bit, is associative. |
| Geometry.RotateArea | include/directfb_util.h:985-1028 | The rotated area holds exactly the rotated points. |
| Geometry.RotationsCompose | include/directfb_util.h:516-559 | Rotations compose like a group on surfaces of any size, turned sizes included. |
| Geometry.PointRotationsCompose | include/directfb_util.h:516-559 | The same for single points. |
| Geometry.CornersTurn | include/directfb_util.h:516-559 | Which corner comes to the top left, so which way the rotations turn. |
| Geometry.NeighboursTurn | include/directfb_util.h:516-559 | Where the axes come to lie. |
| Geometry.RotationUndone | include/directfb_util.h:516-559 | Every rotation is undone by its inverse on the turned surface. |
| Geometry.DFBRectangle.FromRotated | include/directfb_util.h:515-559 | The rectangle form rotates the same points; in place, exactly for the rectangles and rotations named. |
| Geometry.DFBRegion.FromRotated | include/directfb_util.h:696-740 | The region form rotates the same points; in place, exactly for the regions and rotations named. |
| Geometry.DFBBox.FromRotated | include/directfb_util.h:984-1028 | The box form rotates the same points; in place, exactly for the boxes and rotations named. |
| Geometry.InPlaceGoesWrong | include/directfb_util.h:515-1028 | An area none of the three forms rotates in place. |
| Geometry.MeetIsIntersection | include/directfb_util.h:1144-1176 | The intersection holds exactly the common points. |
| Geometry.OverlapTest | include/directfb_util.h:1144-1176 | Two areas have a point in common exactly when their intersection has extent. |
| Geometry.DFBBox.BoxIntersect | include/directfb_util.h:1144-1176 | Reports a hit exactly when there is a common point; then the box is the intersection, else unchanged. |
| Geometry.DFBBox.RegionIntersect | include/directfb_util.h:1201-1236 | The same against a region; a miss empties the box. |
| Geometry.DFBRegion.RegionIntersect | include/directfb_util.h:829-852 | The same for regions. |
| Geometry.DFBRectangle.BoxIntersect | include/directfb_util.h:604-640 | The same for a rectangle, and exactly which empty rectangles are reported as hits. |
| Geometry.EmptyRectangleHits | include/directfb_util.h:604-640 | An empty rectangle that is reported as a hit where the box of the same area is not. |
| Geometry.RotationKeepsMeet | include/directfb_util.h:984-1028 | Rotation commutes with intersection. |
| Geometry.JoinAllIsLeast | include/directfb_util.h:1257-1283 | Folding the box union from an empty box gives the least box around every non-empty one. |
| Geometry.JoinAllIgnoresOrder | include/directfb_util.h:1257-1283 | In any order. |
| Geometry.DFBBox.BoxUnion | include/directfb_util.h:1257-1283 | One step of that fold. |
| Geometry.RegionsUnite | include/directfb_util.h:932-950 | The union of regions agrees with the fold over boxes. |
| Geometry.BoxExtendsIsTouch | include/directfb_util.h:1241-1254 | The box test holds exactly for areas that touch along a whole side. |
| Geometry.RegionExtendsSeesOneSide | include/directfb_util.h:875-887 | Of two touching regions the region test sees exactly the one order, the first above or left of the second. |
| Geometry.RegionExtendsExactly | include/directfb_util.h:875-887 | Exactly when the region test holds, for any two regions: in the other order for an overlap of two rows or columns. |
| Geometry.TouchingMissed | include/directfb_util.h:875-887 | Two points, one below the other, that it misses. |
| Geometry.BoxExtendsIsSound | include/directfb_util.h:1241-1254 | When the test holds the union has no point neither of the two has. |
| Geometry.RegionExtendsIsSound | include/directfb_util.h:875-887 | The same for regions. |
| ChunkPainter.PaintRange | tools/dfbsummon.c:215-225 | The loop ends and paints each pixel of a linear range once, in spans of single rows on the screen. |
| ChunkPainter.ScaleSum | tools/dfbsummon.c:208-213 | Scaling offset and length apart never passes the scaled end and loses at most one pixel. |
| ChunkPainter.ChunksStayApart | tools/dfbsummon.c:208-213 | Chunks that do not overlap are painted apart, on the screen, and touching ones leave at most one pixel between them. |
| ChunkPainter.FewStayUnpainted | tools/dfbsummon.c:208-213 | When the chunks fill the video memory, no more pixels stay unpainted than there are chunks. |
| ChunkPainter.ChunkCallback | tools/dfbsummon.c:178-228 | One chunk paints the pixels from its scaled offset on, as many as its scaled length, both scaled apart. |
| ChunkPainter.UpdateDisplay | tools/dfbsummon.c:230-241 | Over a whole frame every pixel is painted at most once, and exactly when some chunk's range holds it. |
| OptionLists.TokensOfWritten | tools/dfbscreen.c:380-411 | However a list is written, with commas before, between and behind, its items are found. |
| OptionLists.LookupOfName | tools/dfbscreen.c:396-407 | A name of the table gives its own value whatever names it is a prefix of. |
| OptionLists.LookupOfExact | tools/dfbscreen.c:396-407 | The first name that is the token, but for the case of letters, decides. |
| OptionLists.LookupOfPrefix | tools/dfbscreen.c:396-407 | Without one the last name decides that the token is a prefix of, and without that nothing is found. |
| OptionLists.TextsCompared | tools/dfbscreen.c:364-397 | What counts as the same text: letters without their case, everything else as it is. |
| OptionLists.FindValue | tools/dfbscreen.c:385-408 | One scan finds the first exact name or else the last one the token is a prefix of. |
| OptionLists.NameListsParse | tools/dfbscreen.c:360-426 | Any list of names stands for the union of their values. |
| OptionLists.UnionHolds | tools/dfbscreen.c:410 | A bit is in the union exactly when it is in one of the values. |
| OptionLists.UnknownNameFails | tools/dfbscreen.c:409-415 | A list fails exactly when one of its tokens is not found. |
| OptionLists.TokenIdOfDecimal | tools/dfbscreen.c:459-467 | A number printed in decimal is read back. |
| OptionLists.TokenIdOfNumber | tools/dfbscreen.c:459-467 | What white space, a sign, wrap-around and the 32 bits of an int make of any decimal number. |
| OptionLists.IdListsParse | tools/dfbscreen.c:428-479 | Any list of numbers below 32 stands for exactly their bits. |
| OptionLists.BitsOfIds | tools/dfbscreen.c:469 | A bit is set exactly when its number is in the list. |
| OptionLists.AnyOption.ParseEnum | tools/dfbscreen.c:360-426 | Accepts exactly the lists with a meaning and stores that meaning, else nothing. |
| OptionLists.AnyOption.ParseIds | tools/dfbscreen.c:428-479 | The same for numbers, cutting tokens in its own copy of the text. |
| OptionLists.AnyOption.ParseOption | tools/dfbscreen.c:505-515 | Value and flag are written together or not at all; an option without flags has only its value. |

## Left out

- Reading of files and PNG data, printing of comments, palettes and descriptions, command lines and `main` functions: input and output only.
- Trigraphs: `?` is printed as itself, so the round trip is for a reader without trigraph replacement.
- The guards against empty data in `dump_raw_data` and `dump_image`: they are the precondition of `DumpData`.
- The allocation and copying of images of more than 2^31 bytes, where the 32-bit sizes of `merge_images` overflow.
- The advanced dither table: the theorems hold for every table within the lane bounds, the simple one is written out.
- The colour space of a surface and its resource id, and the position, options and capability bits of a window. Whether a format is supported or fits a colour space, and how long its lines are, are functions the theorems quantify over.
- The layout `CreateSurface` assumes when there is no context (src/idirectfb.c:569-574): a session that is ready always has one.
- What an `IDirectFBSurface` interface does with references of its own; the session's books end where an interface is handed out.
- The counter of users of the main interface, `dfb_core_destroy` and the interface's memory.
- Thread interleavings: each call, event and hot-plug message is one step. Two threads that create and read the singleton at once are not modelled, nor a plug message for a device that is already in the list.
- Whether `IDirectFB_WaitInitialised` ever returns: after a failed start it does not.
- Video providers, fonts, clipboard, screens and the other calls that only pass their arguments on.
- Manual attachment of devices to event buffers: `Hotplug` covers the buffers created with capabilities.
- `Session.IDirectFB.CreateSurface`: the calls before a failure are not listed, only what they leave behind.
- `1 << id` from 32 on: undefined in C, so the result there is whatever the parameter `wide` says.
- Words in `OptionLists` are sets of bits, which is exact for `|=` and `1 << n` and for nothing else.
- Coordinates in `Geometry` are unbounded integers; overflow of 32 bits is not modelled.
- Lines, triangles, points and clipping in include/directfb_util.h: nothing harder than what is here.
- The colours `chunk_callback` picks and the calls that clear and flip the screen.
