# emulsion — input resolution, event loop and lazy picture textures

A Dafny model of three parts of the emulsion image viewer and of its small
UI toolkit, gelatin:

* **InputHandling** (`input_handling.dfy`) covers key-chord resolution.
  - A chord such as `"Ctrl+Alt+S"` is split on `+`. Each piece is trimmed and
    lowercased. The last piece is the key and the rest are modifiers.
  - The chord fires when its key equals the input key and the modifiers it
    names (alt, ctrl, logo) are exactly the ones held. `CmdCtrl` stands for
    logo on macOS and for ctrl elsewhere. Shift is never compared.
  - An action is resolved with the user's chords when the configuration binds
    it, and with the built-in default table otherwise.
  - A user command fires on the same rule. Before it starts, its arguments get
    `${img}` and `${folder}` substituted.
* **Gelatin** (`application.dfy`) covers the event loop's state.
  - The stored *control flow* says when the loop wakes next: `Wait`,
    `WaitUntil(deadline)` or `Poll`.
  - Setting a deadline less than 100 microseconds away stores `Poll` instead.
  - Aggregating a request keeps the more urgent of the stored flow and the
    request.
  - Also modelled: the window registry, the exit flag, the exit callback, and
    the body run for every platform event.
  - The calls that act on windows (event forwarding, redraws, redraw
    requests, the end-of-events notice) and the exit callback are recorded
    as a sequence of effects; the queries the idle pass makes are not.
* **Pictures** (`picture_widget.dfy`) covers the picture widget.
  - A picture is either a pending load of a file or a texture resident on the
    GPU. It is decoded and uploaded lazily, on the first draw.
  - A failed decode empties the widget's slot.
  - The widget's events update hover, click, the pending picture and the
    "rendered valid" flag.

The host platform, the current time, the hash-map iteration orders, the global
handlers' answers and the windows' answers are all parameters of the model.

## Model

| member | source | states |
|---|---|---|
| InputHandling.Split | src/input_handling.rs:120 | `split` always yields at least one piece |
| InputHandling.SplitPiecesLackSeparator | src/input_handling.rs:120 | no piece of a split contains the separator |
| InputHandling.JoinSplit | src/input_handling.rs:120 | joining the pieces of a split with the separator gives the chord back |
| InputHandling.SplitJoin | src/input_handling.rs:120 | separator-free pieces, once joined, split back into the same pieces |
| InputHandling.SplitNoSeparator | src/input_handling.rs:120 | a string without `+` is a single piece |
| InputHandling.SplitPrefix | src/input_handling.rs:120 | a leading separator-free piece splits off as the first piece |
| InputHandling.TrimStartKeepsSuffix | src/input_handling.rs:120 | `trim_start` removes exactly a run of leading whitespace and keeps a suffix |
| InputHandling.TrimEndKeepsPrefix | src/input_handling.rs:120 | `trim_end` removes exactly a run of trailing whitespace and keeps a prefix |
| InputHandling.TrimKeepsInterior | src/input_handling.rs:120 | a trimmed token has no whitespace at either end, holds only characters of the piece, and a blank-free piece is unchanged |
| InputHandling.LowerMapsAsciiOnly | src/input_handling.rs:120 | lowercasing keeps the length, maps each character on its own and leaves no ASCII capital |
| InputHandling.Normalise | src/input_handling.rs:120 | there is one token per piece |
| InputHandling.NormaliseAt | src/input_handling.rs:120 | the i-th token is the i-th piece, trimmed and lowercased |
| InputHandling.Parts | src/input_handling.rs:120-124 | a chord has at least one token, so the key `parts.last()` always exists |
| InputHandling.CollectModifiers | src/input_handling.rs:128-145 | the flags raised by the loop are exactly the modifiers the tokens name, with `cmdctrl` resolved per platform and unknown tokens ignored |
| InputHandling.ChordFires | src/input_handling.rs:119-151 | one chord fires iff its key equals the input key and its modifier set equals the held alt/ctrl/logo |
| InputHandling.KeysTriggered | src/input_handling.rs:113-154 | the answer is true iff some chord in the list fires |
| InputHandling.ChordOrderIrrelevant | src/input_handling.rs:113-154 | lists holding the same chords give the same answer, whatever the order and repetitions |
| InputHandling.EmptyChordListNeverTriggers | src/input_handling.rs:113-154 | an empty chord list never fires |
| InputHandling.ShiftIgnored | src/input_handling.rs:146-148 | flipping shift never changes the answer |
| InputHandling.CmdCtrlResolvesToOne | src/input_handling.rs:136-142 | `CmdCtrl` names logo alone on macOS and ctrl alone elsewhere |
| InputHandling.PartsWithPrefix | src/input_handling.rs:120 | a chord with an extra modifier token in front has that token, normalised, followed by the chord's own tokens |
| InputHandling.ImpliedIgnoresUnknown | src/input_handling.rs:143 | a token other than alt/ctrl/logo/cmdctrl adds no modifier |
| InputHandling.UnknownModifierIgnored | src/input_handling.rs:131-145 | prefixing a chord with an unknown modifier word leaves whether it fires unchanged |
| InputHandling.KeyTokenHasNoPlus | src/input_handling.rs:120-124 | a chord's key never contains `+` |
| InputHandling.PlusKeyNeedsRenaming | src/input_handling.rs:56-68 | no chord list fires on the raw input key `+`, which is why typed `+` is renamed to `add` |
| InputHandling.UppercaseInputNeverTriggers | src/input_handling.rs:120-126 | only chords are lowercased, so an input key holding an ASCII capital never fires |
| InputHandling.TrimWord | src/input_handling.rs:120 | trimming a word without blanks leaves it unchanged |
| InputHandling.SplitCtrlS | src/input_handling.rs:120 | `"Ctrl+S"` splits into `"Ctrl"` and `"S"`, and `"S"` into itself |
| InputHandling.CtrlSParts | src/input_handling.rs:120 | the tokens of `"Ctrl+S"` are `ctrl`, `s` and those of `"S"` are `s` |
| InputHandling.CtrlSMatchesExactly | src/input_handling.rs:146-151 | modifier matching is exact: ctrl fires `Ctrl+S`, ctrl+alt does not, `S` does not fire under ctrl, and input `S` does not match the lowercased chord |
| InputHandling.DefaultBindingsTable | src/input_handling.rs:34-54 | the built-in table gives every action it lists at least one chord (`img_copy` is `CmdCtrl+C`); `pan_vert`, `pan_hor`, `zoom_in`, `zoom_out` and the four `pan_` directions have no entry |
| InputHandling.ActionTriggered | src/input_handling.rs:156-171 | an action bound by the user is resolved with the user's chords only; otherwise with the default chords, and never fires when there are none |
| InputHandling.UserBindingOverridesDefault | src/input_handling.rs:164-165 | a user binding, even an empty one, replaces the default |
| InputHandling.MissingUserBindingFallsBack | src/input_handling.rs:166-169 | without a user binding the default chords are used, or none |
| InputHandling.PanVertNeedsUserBinding | src/input_handling.rs:34-54 | vertical panning has no default chord and never fires unless bound by the user |
| InputHandling.CharToInputKey | src/input_handling.rs:56-68 | space becomes `space`, `+` becomes `add`, `-` becomes `subtract`; those three are never returned and every other character is its own key |
| InputHandling.SubstituteCommandParameters | src/input_handling.rs:70-76 | the result is every placeholder replaced in map order, and an empty map leaves the string alone |
| InputHandling.ReplaceAbsent | src/input_handling.rs:73 | a placeholder that does not occur changes nothing |
| InputHandling.ReplaceAtFirstOccurrence | src/input_handling.rs:73 | when no occurrence of the placeholder starts before a given one, that one is replaced, the text before it is kept and replacing goes on in the rest, so every occurrence is replaced and not only the first |
| InputHandling.NoStartBeforeFirstChar | src/input_handling.rs:73 | a placeholder whose first char does not appear in a text cannot start anywhere inside it |
| InputHandling.DollarBeforePlaceholder | src/input_handling.rs:73 | a `$` just before the placeholder does not hide it: `$${img}` with `x` for `${img}` becomes `$x` |
| InputHandling.SubstituteTwo | src/input_handling.rs:70-76 | with the two placeholders the map holds, the first one the map yields is replaced first and the second is then replaced in the result |
| InputHandling.SubstituteImgExample | src/input_handling.rs:91-93 | the argument `open ${img}` runs as `open a.png` for image `a.png`, whichever order the map yields `${img}` and `${folder}` in |
| InputHandling.ReplaceEmptyPattern | src/input_handling.rs:73 | an empty pattern yields `len + (len+1) * len(to)` characters, one copy of the replacement per char boundary |
| InputHandling.ReplaceEmptyPatternAt | src/input_handling.rs:73 | with an empty pattern the k-th copy of the replacement sits at offset k·(len(to)+1) and the k-th character of the argument right after it |
| InputHandling.SubstituteWithoutPlaceholders | src/input_handling.rs:70-76 | an argument mentioning no placeholder is passed through unchanged |
| InputHandling.SubstitutedArgs | src/input_handling.rs:97-99 | there is one substituted argument per configured argument |
| InputHandling.TriggeredCommands | src/input_handling.rs:82-111 | with no commands nothing starts; otherwise the commands whose chords fire are started in configuration order, with substituted arguments and their environment |
| InputHandling.SelectedComplete | src/input_handling.rs:94-95 | every command whose chords fire is started |
| InputHandling.SelectedSound | src/input_handling.rs:94-95 | every started invocation comes from a command whose chords fire, and the lemma names that command |
| InputHandling.SelectedAtMostOnce | src/input_handling.rs:94-108 | a single command yields its invocation if its chords fire and nothing otherwise, so there are never more invocations than commands |
| InputHandling.SelectedAppend | src/input_handling.rs:94-109 | commands are handled one by one in configuration order: the invocations for `a + b` are those for `a` followed by those for `b` |
| InputHandling.SelectedExactlyTriggered | src/input_handling.rs:94-95 | an invocation is selected iff some command whose chords fire produces it, and there are never more invocations than commands |
| Gelatin.Clamp | subcrates/gelatin/src/application.rs:23-34 | a deadline closer than 100 microseconds becomes Poll, anything else (a later deadline, Wait, Poll) is stored unchanged; the result never holds a near deadline and is at least as urgent as the request |
| Gelatin.Application.SetControlFlow | subcrates/gelatin/src/application.rs:23-34 | the stored flow is the clamped request |
| Gelatin.ClampIdempotent | subcrates/gelatin/src/application.rs:62-64 | sanitizing a sanitized flow changes nothing |
| Gelatin.NearDeadlineBecomesPoll | subcrates/gelatin/src/application.rs:24-27 | a deadline 50 microseconds away is stored as Poll |
| Gelatin.Aggregated | subcrates/gelatin/src/application.rs:36-60 | the stored result is at least as urgent as both the old flow and the request, and is one of the two |
| Gelatin.Application.AggregateControlFlow | subcrates/gelatin/src/application.rs:36-60 | the flag says whether the request replaced the flow, and the new flow is the aggregate |
| Gelatin.ReplacesIffMoreUrgent | subcrates/gelatin/src/application.rs:39-58 | a request replaces the flow iff it is Poll or strictly more urgent; Wait never does |
| Gelatin.UrgencyIsTotalPreorder | subcrates/gelatin/src/application.rs:39-58 | the urgency order used by aggregation is reflexive, total and transitive |
| Gelatin.Application.SanitizeControlFlow | subcrates/gelatin/src/application.rs:62-64 | the stored flow is re-clamped against the current time |
| Gelatin.Application.RunGlobalHandlers | subcrates/gelatin/src/application.rs:134-137 | the flow after the handlers is their answers folded in, in registration order |
| Gelatin.FoldIsUpperBound | subcrates/gelatin/src/application.rs:134-137 | the folded flow is at least as urgent as the starting flow and as every handler's answer |
| Gelatin.FoldPicksARequest | subcrates/gelatin/src/application.rs:134-137 | the folded flow is the starting flow or one handler's answer (clamped) |
| Gelatin.FoldPollAbsorbs | subcrates/gelatin/src/application.rs:134-137 | one Poll answer makes the result Poll |
| Gelatin.FoldKeepsNormalised | subcrates/gelatin/src/application.rs:134-137 | folding handler answers into a flow without a near deadline never stores one, since each stored answer goes through set_control_flow |
| Gelatin.FoldExample | subcrates/gelatin/src/application.rs:134-137 | answers "in 50 ms", Wait, "in 10 ms" give the 10 ms deadline |
| Gelatin.Application.constructor | subcrates/gelatin/src/application.rs:76-83 | a new application has no windows, no exit callback and no exit request |
| Gelatin.Application.SetAtExit | subcrates/gelatin/src/application.rs:85-90 | the exit callback is installed or removed |
| Gelatin.Application.RequestExit | subcrates/gelatin/src/application.rs:19-21 | the exit flag is raised |
| Gelatin.Application.RegisterWindow | subcrates/gelatin/src/application.rs:92-94 | the window is stored under its id, replacing any earlier window with that id, and every entry stays keyed by its own id |
| Gelatin.VisitWindows | subcrates/gelatin/src/application.rs:171-179 | the loop makes the idle-pass calls into every window in order, and its flag is true iff every visited window may sleep and none needs a redraw |
| Gelatin.Application.IdlePass | subcrates/gelatin/src/application.rs:170-185 | every window is told the events are cleared; those needing a redraw are asked for one; the flow becomes Wait iff all windows may sleep, none needs a redraw and no deadline is pending |
| Gelatin.QuietSoFarCoversAll | subcrates/gelatin/src/application.rs:171-179 | visiting every window once decides whether the whole registry may sleep |
| Gelatin.IdleEffectsCoverWindows | subcrates/gelatin/src/application.rs:172-179 | the idle pass reaches exactly the registered windows, and asks for a redraw of exactly those that need one |
| Gelatin.Application.HandleEvent | subcrates/gelatin/src/application.rs:133-195 | the full new state for each event: Init stores Wait; a window event redraws and aggregates (RedrawRequested), raises the exit flag (CloseRequested), is passed to the window registered under its id, whose own id it is (the registry invariant), and removes it (Destroyed); AboutToWait exits when asked, otherwise runs the idle pass; LoopExiting runs the exit callback at most once; anything else only sanitizes and runs the handlers; whatever the event, the flow left for the platform holds no deadline closer than 100 microseconds |
| Gelatin.DestroyUnregisters | subcrates/gelatin/src/application.rs:155-164 | Destroyed is passed to the window first and then the window is no longer registered |
| Gelatin.CloseThenIdle | subcrates/gelatin/src/application.rs:150-169 | a close request followed by AboutToWait exits without touching any window |
| Pictures.Backend.constructor | src/picture_widget.rs:36-60 | nothing has been decoded or uploaded yet |
| Pictures.Backend.Open | src/picture_widget.rs:41-42 | the decode result is the decoder's answer for the path, and the decode is recorded |
| Pictures.Backend.CpuToTexture | src/picture_widget.rs:54-60 | every upload creates a new texture |
| Pictures.UploadToTexture | src/picture_widget.rs:36-52 | a pending picture is decoded once and becomes resident, or becomes an empty pending load on error; a resident one is unchanged and costs no decode; success always leaves it resident |
| Pictures.Texture | src/picture_widget.rs:28-35 | the texture or the error is as specified by Resolve, with exactly the decodes and uploads the picture needs |
| Pictures.ResolveIdempotent | src/picture_widget.rs:28-52 | a resolved picture is resident and resolving it again gives the same texture |
| Pictures.FailedDecodeLeavesNoTexture | src/picture_widget.rs:36-43 | only a pending load whose decode fails gives an error, and it leaves an empty pending load |
| Pictures.TextureTwice | src/picture_widget.rs:28-52 | the second request for a texture returns the first one's texture; the path is decoded once, and uploaded once exactly when the decode succeeds |
| Pictures.PictureWidget.constructor | src/picture_widget.rs:159-192 | a new widget has no picture, no hover, no click and needs drawing |
| Pictures.PictureWidget.GetTexture | src/picture_widget.rs:139-152 | the slot and texture afterwards are as specified by Fetch: an empty slot stays empty, a failed decode empties it, otherwise the resident texture is returned |
| Pictures.FetchLeavesNoPending | src/picture_widget.rs:139-152 | after a fetch the slot is never a pending load, and a texture is returned iff the slot holds it |
| Pictures.FetchIdempotent | src/picture_widget.rs:139-152 | a second fetch gives the same result and costs no decode or upload |
| Pictures.FetchFailedDrop | src/picture_widget.rs:144-148 | a dropped file that cannot be decoded leaves the widget empty |
| Pictures.PictureWidget.HandleEvent | src/picture_widget.rs:281-306 | hover follows the cursor; a left press copies hover into click and a release clears it, both invalidating; a dropped file becomes the pending picture and invalidates; all else changes nothing |
| Pictures.PictureWidget.Draw | src/picture_widget.rs:207-274 | the texture is fetched as in GetTexture and the widget is valid afterwards (`is_valid`) |
| Pictures.PictureWidget.IsValid | src/picture_widget.rs:198-200 | the widget needs no redraw exactly when its rendered-valid flag is set; Draw guarantees it afterwards, and HandleEvent clears it on a left click or a dropped file |
| Pictures.DrawAfterFailedDecode | src/picture_widget.rs:139-152 | after an undecodable drop two draws show nothing and decode only once |

## Left out

- `src/cmd_line.rs` is not part of this model.
- Starting the user command's process, passing its environment and reporting its exit status are left out. The model stops at the program, arguments and environment a triggered command would be started with.
- Lowercasing is modelled on ASCII letters only. Rust's `to_lowercase` also folds non-ASCII capitals.
- Hash-map iteration orders are parameters of the model, not computed: the order of `${img}` and `${folder}`, and the order in which windows are visited.
- In `keys_triggered`, the branch for an empty list of parts is absent: `split` always yields at least one piece (`InputHandling.Split`), so that branch never runs.
- The configuration is taken as already parsed. Reading and parsing the configuration file is not modelled.
- Time is one integer `now`, in microseconds, per event. The source reads the clock at each `set_control_flow` call.
- Global handlers are given as the sequence of their answers, already converted from `NextUpdate` to a control flow. `add_global_event_handler` only appends to that list.
- Windows are given by their id and by the answers they would give (`should_sleep`, `redraw_needed`, the result of `redraw`). Window internals are not modelled, nor is the order of the window's own processing.
- Gelatin.Application.HandleEvent: a window event for an unknown id is excluded by the precondition. In the source `unwrap` panics there.
- The benchmark timing code, the X-server `Poll` workaround that follows the match, logging and winit's run machinery are left out.
- The exit flag is an atomic static in the source; here it is a field of the application.
- Picture decoding (`image::open`, `into_rgba`) and the GPU upload are abstracted. The decoder is a function from path to image or error, and each upload yields a new texture number.
- Pictures.PictureWidget.Draw: the floating-point geometry (`fit_image_to_panel`, transforms, samplers) is not modelled, nor is the choice of branch on `image_fit`. Both branches fetch the texture the same way, and only that is modelled.
- The playback manager, `before_draw`, toggling and pausing playback, layout, panning and window moving are left out.
- `RefCell` borrowing and `Rc` sharing are not modelled.

## Notes on the idle pass

When a window needs a redraw, the idle pass asks it for one and only withholds
the switch to `Wait`; it does not store `Poll`
(subcrates/gelatin/src/application.rs:175-183). The flow left in place is the
one the handlers produced (`Gelatin.Application.IdlePass`).
