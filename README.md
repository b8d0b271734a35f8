# Scarlett 18i6 mixer control core, in Dafny

This project models the control logic of the Focusrite Scarlett 18i6 mixer GUI
(`src/scarlett_mixer.c`). The GUI drives the interface's mixing matrix:

- 18 capture-source selectors;
- an 18 x 6 grid of matrix gain cells, each row with its own input selector;
- six output assigns;
- three stereo output gains with mute;
- a master gain with mute;
- two Hi-Z switches.

Four pieces of that logic are modelled, and properties are proved about each.

1. **Fixed control numbering.** This is module `Topology`.
   - The lookups `matrix_ctrl_cr`, `matrix_ctrl_n`, `matrix_sel`, `src_sel`, `out_gain`, `out_sel`, `hiz` and `mst_gain` each map a logical coordinate to a position in the registry of active controls. They return NULL outside their range.
   - The selector defaults are modelled too.
   - `CoordOf` inverts the lookups. With it, the model proves that the families are disjoint, that each lookup is injective, and that 157 is the highest position any lookup reaches.
2. **The control registry and its accessors.** This is module `Controls`, plus `open_mixer` and `close_mixer` in `Mixer.App`.
   - Each element is a value holding three things:
     - its capabilities;
     - per-channel playback switches and centibel gains;
     - a selected enumerated item.
   - `set_mute`, `set_dB` and `set_enum` are pure functions on that value. `Mixer.App.SetMute`, `SetDb` and `SetEnum` implement them on the registry array. `SetMute` and `SetDb` run the source's loop over channels 0..2; `SetEnum` writes channel 0 only.
   - `open_mixer` counts the active elements, then copies them, in order, into an array of exactly that size.
3. **Force resend.** This is `cb_btn_reset`: module `Resend` and `Mixer.App.ForceResend`.
   - Every matrix and output gain, and every selector with two or more items, is first written a value that differs from the widget's, then the widget's own value. A selector with a single item is written that item twice. This makes the edge-triggered hardware latch the value again.
   - The model proves four things:
     - the intermediate value really differs (for a selector, when it has two or more items);
     - the end state equals a single write of the widget's value;
     - each control is visited once;
     - master gain and Hi-Z are never written.
4. **Reconciliation and the suppression guard.** This is module `Widgets` and `Mixer.App`.
   - The app holds a widget snapshot and the `disable_signals` flag.
   - Every widget callback writes the hardware only while the flag is clear. `cb_mtx_gain` is the exception: it updates its knob's marker first, whatever the flag.
   - A robtk widget setter stores its value and runs the callback only when the value changes.
   - `port_event` sets the flag and re-reads every control into its widget, so no callback writes back. Then it clears the flag.
   - `instantiate` builds the widgets under the same guard.
   - The middle-click exclusive assignment of a matrix row (`robtk_dial_mouse_intercept`) is modelled on the same snapshot.

The two floating-point formulas `db_to_knob` and `knob_to_db` take square roots. They are parameters of the model: `Codec.dbToKnob`, and `Codec.roundedDb` for the rounded, unclamped part of `knob_to_db`. `Controls.KnobToDb` adds the clamp to +6 dB.

Three behaviours of the code are easy to miss, and the model keeps them:

- A resend starts from the widget's value, not from the value the hardware holds.
- `cb_mtx_gain` updates its knob's click marker even while the guard is held (`Mixer.App.CbMtxGain`).
- On a poll error, `port_event` asks the host to close the window and still re-reads every control (`Mixer.App.PortEvent`).

## Model

| member | source | states |
|---|---|---|
| Topology.SrcSelDefault | src/scarlett_mixer.c:157-161 | the default capture item `(r + 7) % m` lies in `[0, m)` for every item count m > 0 |
| Topology.CoordOf | src/scarlett_mixer.c:108-222 | every registry position that some lookup owns is mapped to an in-range coordinate |
| Topology.MatrixCtrlCr | src/scarlett_mixer.c:108-119 | `matrix_ctrl_cr(c, r)` is NULL exactly when r >= 18 or c >= 6, and otherwise a position in 33..157 |
| Topology.MatrixCtrlCrSpec | src/scarlett_mixer.c:108-119 | inside the grid the cell of (c, r) is `33 + 7r + c`; (0,0) gives 33 and (2,3) gives 56 |
| Topology.MatrixCtrlN | src/scarlett_mixer.c:122-127 | `matrix_ctrl_n(n)` is NULL exactly from n = 108 on, and otherwise a position in 33..157 |
| Topology.MatrixSel | src/scarlett_mixer.c:130-141 | `matrix_sel(r)` is NULL exactly when r >= 18, and otherwise a position 32 + 7k below 157 |
| Topology.SrcSel | src/scarlett_mixer.c:144-155 | `src_sel(r)` is NULL exactly when r >= 18, and otherwise a position in 13..30 |
| Topology.OutGain | src/scarlett_mixer.c:164-172 | `out_gain(c)` is NULL exactly when c >= 3, and otherwise one of 1, 4, 7 |
| Topology.OutSel | src/scarlett_mixer.c:189-200 | `out_sel(c)` is NULL exactly when c >= 6, and otherwise a position in 2..9 that is not an output gain |
| Topology.OutSelDefault | src/scarlett_mixer.c:202-206 | the default item of each of the six output assigns lies in 25..30 |
| Topology.MtxSelDefault | src/scarlett_mixer.c:802 | the default input of a matrix row is never item 0 ("off"), and lies in 1..18 for the 18 rows |
| Topology.Hiz | src/scarlett_mixer.c:209-216 | `hiz(c)` is NULL exactly when c >= 2, and otherwise position 11 + c |
| Topology.MstGain | src/scarlett_mixer.c:219-222 | the master control is the position owned by the master coordinate |
| Topology.MatrixCtrlNRowMajor | src/scarlett_mixer.c:122-127 | `matrix_ctrl_n(r*6 + c)` is `matrix_ctrl_cr(c, r)`: the widgets' row-major numbering |
| Topology.CoordOfLookup | src/scarlett_mixer.c:108-222 | every in-range coordinate's lookup returns a position whose owner is that coordinate |
| Topology.LookupCoordOf | src/scarlett_mixer.c:108-222 | every owned position is where its owner's lookup lands |
| Topology.LookupNone | src/scarlett_mixer.c:108-222 | a lookup returns NULL exactly for an out-of-range coordinate, in both directions |
| Topology.LookupInjective | src/scarlett_mixer.c:108-222 | two coordinates whose lookups return the same position are the same coordinate: the families are disjoint and each is injective |
| Topology.LookupBound | src/scarlett_mixer.c:108-222 | every lookup result is at most 157, and Mix F of row 18 reaches 157 |
| Controls.WriteSwitch | src/scarlett_mixer.c:336-346 | one playback-switch write changes no capability of the element |
| Controls.WriteCentibels | src/scarlett_mixer.c:364-376 | one gain write changes no capability of the element |
| Controls.SwitchFor | src/scarlett_mixer.c:336-338 | the switch value set_mute writes is 0 exactly when muting |
| Controls.WithMute | src/scarlett_mixer.c:336-346 | set_mute changes switch values only, never capabilities |
| Controls.WithDb | src/scarlett_mixer.c:364-376 | set_dB changes gains only, never capabilities |
| Controls.WithEnum | src/scarlett_mixer.c:390-394 | set_enum changes the selected item only, never capabilities |
| Controls.GetMute | src/scarlett_mixer.c:348-354 | get_mute is true exactly when channel 0's switch holds the value set_mute writes for muting; without a readable channel 0 it reads muted |
| Controls.GetDb | src/scarlett_mixer.c:356-362 | get_dB is channel 0's centibels divided by 100, and 0 without a readable channel 0 |
| Controls.GetEnum | src/scarlett_mixer.c:396-402 | writing back the item get_enum read (when it names an item) leaves the element unchanged |
| Controls.MuteRoundTrip | src/scarlett_mixer.c:336-354 | get_mute after set_mute(m) returns m when channel 0 plays back; the gain and the item are untouched |
| Controls.DbRoundTrip | src/scarlett_mixer.c:356-376 | get_dB after set_dB(d) returns d when channel 0 plays back; the mute and the item are untouched |
| Controls.EnumRoundTrip | src/scarlett_mixer.c:390-402 | get_enum after set_enum(v) returns v for an item in range; an out-of-range item leaves the element unchanged |
| Controls.WithMuteTouches | src/scarlett_mixer.c:336-346 | set_mute changes exactly the switch values of playback channels among 0..2; every gain is kept |
| Controls.WithDbTouches | src/scarlett_mixer.c:364-376 | set_dB changes exactly the gains of playback channels among 0..2, to 100*d centibels; every switch is kept |
| Controls.MuteLastWins | src/scarlett_mixer.c:336-346 | of two set_mute calls in a row, only the second is visible |
| Controls.DbLastWins | src/scarlett_mixer.c:364-376 | of two set_dB calls in a row, only the second is visible |
| Controls.EnumLastWins | src/scarlett_mixer.c:390-394 | of two set_enum calls in a row, the second wins when it is in range |
| Controls.Active | src/scarlett_mixer.c:287-323 | the registry is no longer than the enumeration, holds only active elements, and is the whole enumeration when nothing is filtered out |
| Controls.ActiveConcat | src/scarlett_mixer.c:304-323 | filtering a concatenation filters each part |
| Controls.ActiveSnoc | src/scarlett_mixer.c:287-323 | one more enumerated element extends the registry by that element exactly when it is active |
| Controls.ActiveMembers | src/scarlett_mixer.c:304-323 | an element is in the registry exactly when it is enumerated and active |
| Controls.ActiveEmpty | src/scarlett_mixer.c:287-300 | the registry is empty exactly when no element is active |
| Controls.CapableAt | src/scarlett_mixer.c:108-222 | in a registry laid out as the 18i6, every in-range lookup lands on a control of the capability its users assert |
| Controls.FitsUpdate | src/scarlett_mixer.c:336-402 | writing values, never capabilities, keeps the 18i6 layout |
| Controls.KnobToDb | src/scarlett_mixer.c:415-421 | knob_to_db is at most +6 dB, and is the rounded value unless that value exceeds +6 |
| Widgets.ClickOf | src/scarlett_mixer.c:517-523 | the matrix knob marker is 1 exactly at -128 dB, 2 exactly at 0 dB, and 0 otherwise |
| Widgets.InitialClick | src/scarlett_mixer.c:816-826 | a freshly built knob is marked 1 exactly at position 0, and 2 exactly when it reads 0 dB elsewhere |
| Widgets.KnobOf | src/scarlett_mixer.c:1133 | a knob shows db_to_knob of the control's get_dB; without a readable channel 0 it shows db_to_knob(0) |
| Widgets.KnobAfterSetDb | src/scarlett_mixer.c:364-376 | a knob read back after set_dB(d) on a control with a playback channel 0 shows db_to_knob(d) |
| Widgets.Readback | src/scarlett_mixer.c:1116-1156 | reading every control through the lookups yields a snapshot with every widget family at its full size |
| Widgets.MatrixKnobs | src/scarlett_mixer.c:1126-1135 | the matrix knobs read back are 108 positions, row by row |
| Widgets.ClickAfter | src/scarlett_mixer.c:512-523 | setting a knob recomputes its marker exactly when the value changes, and keeps it otherwise |
| Widgets.ClicksAfter | src/scarlett_mixer.c:1126-1135 | the matrix markers after a refresh, one per knob |
| Widgets.Reconciled | src/scarlett_mixer.c:1116-1156 | after a refresh every widget except the markers equals the hardware readback; each marker follows ClickAfter from its old knob value |
| Widgets.ReconcileIdempotent | src/scarlett_mixer.c:1116-1156 | two refreshes with no hardware change in between yield the same snapshot |
| Widgets.ReconcileAfterBuild | src/scarlett_mixer.c:742-955 | a refresh right after the widgets were built from unchanged hardware changes nothing |
| Widgets.ReconcileForgetsSnapshot | src/scarlett_mixer.c:1116-1156 | a refresh shows the same values whatever the snapshot held before, markers aside; capture selector 0 shows control 13's item |
| Widgets.ReconcileClickConsistent | src/scarlett_mixer.c:512-523 | every knob a refresh changed has the marker of its new decibel value |
| Widgets.ExclusiveRow | src/scarlett_mixer.c:714-733 | a middle click on knob n closes the other knobs of n's row and toggles n between 0 and unity; other rows are kept |
| Widgets.ExclusiveRowAt | src/scarlett_mixer.c:719-732 | the value of knob i of n's row after the click, located without division |
| Widgets.ExclusiveAtMostOne | src/scarlett_mixer.c:714-733 | after a middle click at most one knob of the row is open |
| Widgets.ExclusiveToggle | src/scarlett_mixer.c:714-733 | repeated middle clicks on one knob alternate it between open and closed; the third click gives the first click's row |
| Resend.FlipDb | src/scarlett_mixer.c:458-463 | the intermediate gain differs from the true one and is +127 or -128 |
| Resend.ResendEnum | src/scarlett_mixer.c:431-437 | the selector pair of writes changes no capability of the control |
| Resend.ResendGain | src/scarlett_mixer.c:453-465 | the gain pair of writes changes no capability of the control |
| Resend.ResendOutput | src/scarlett_mixer.c:466-478 | the mute pair and gain pair of an output change no capability of the control |
| Resend.Resent | src/scarlett_mixer.c:427-480 | what the button leaves at any position keeps the control's capabilities, so the 18i6 layout survives the button |
| Resend.ResendEnumRestores | src/scarlett_mixer.c:431-451 | a resent selector ends as a single write of its true item, also with one item; the intermediate item is in range |
| Resend.ResendEnumMoves | src/scarlett_mixer.c:431-451 | with two or more items the intermediate item really differs from the true one |
| Resend.ResendGainRestores | src/scarlett_mixer.c:453-465 | a resent gain ends as a single write of its true value, and reads it back |
| Resend.ResendGainMoves | src/scarlett_mixer.c:453-465 | the intermediate gain write really changes what channel 0 reads |
| Resend.ResendOutputRestores | src/scarlett_mixer.c:466-478 | a resent output ends as one write of its true mute and one of its gain; the intermediate mute really differs |
| Resend.ResentAgrees | src/scarlett_mixer.c:427-480 | after the button every visited control reads back what its widget shows; master, Hi-Z and unowned positions are unchanged |
| Resend.Rank | src/scarlett_mixer.c:427-480 | every coordinate's place in the button's visiting order is at most 153 |
| Resend.RankInjective | src/scarlett_mixer.c:427-480 | distinct visited coordinates have distinct places in the order |
| Resend.RankAtUnique | src/scarlett_mixer.c:427-480 | each visited control is written at exactly one step |
| Resend.RankAtLookup | src/scarlett_mixer.c:427-480 | the position a lookup returns carries that coordinate's place in the order |
| Resend.RankAtVisited | src/scarlett_mixer.c:427-480 | a position is visited exactly when its owner is neither master gain nor Hi-Z |
| Resend.ResentStep | src/scarlett_mixer.c:427-480 | resending the next control in the order extends the resent prefix by one and leaves every other control as it was |
| Resend.ResentDone | src/scarlett_mixer.c:427-480 | once all 153 steps are done, every control is as Resent says |
| Mixer.CountActive | src/scarlett_mixer.c:287-294 | the first loop of open_mixer counts exactly the active elements |
| Mixer.CopyActive | src/scarlett_mixer.c:302-323 | the second loop fills a new array with exactly the active elements, in order |
| Mixer.RowWrites | src/scarlett_mixer.c:719-732 | the hardware after a row's knobs changed is the same length as before |
| Mixer.RowWritesCell | src/scarlett_mixer.c:719-732 | a row's cells are consecutive, and each is written with its knob's decibel value exactly when signals are enabled and that knob changed |
| Mixer.RowWritesStep | src/scarlett_mixer.c:719-732 | one knob's cb_mtx_gain extends the written prefix of the row by one cell |
| Mixer.App.constructor | src/scarlett_mixer.c:1027 | a new app has no controls, no widgets, the mixer closed and signals enabled |
| Mixer.App.OpenMixer | src/scarlett_mixer.c:239-325 | returns 0 exactly for a reachable card of the right name with an active element. A control-open failure returns its error code, a name mismatch returns -1, a mixer failure returns its code, and no active element returns -1 with the count set to 0. On success the registry is exactly the active elements in order, and the count is their number |
| Mixer.App.CloseMixer | src/scarlett_mixer.c:327-334 | the mixer is closed and the registry released |
| Mixer.App.SetMute | src/scarlett_mixer.c:336-346 | the registry changes only at the control, which becomes WithMute of it; the layout is kept |
| Mixer.App.SetDb | src/scarlett_mixer.c:364-376 | the registry changes only at the control, which becomes WithDb of it; the layout is kept |
| Mixer.App.SetEnum | src/scarlett_mixer.c:390-394 | the registry changes only at the control, which becomes WithEnum of it; the layout is kept |
| Mixer.App.CbSetHiz | src/scarlett_mixer.c:482-490 | under the guard nothing is written; otherwise both impedance switches take item 1 for Hi-Z and 0 otherwise, and no other control changes |
| Mixer.App.CbSrcSel | src/scarlett_mixer.c:492-500 | under the guard nothing is written; otherwise only capture selector n's control changes, to the widget's item |
| Mixer.App.CbMtxSrc | src/scarlett_mixer.c:502-510 | under the guard nothing is written; otherwise only row n's input selector changes, to the widget's item |
| Mixer.App.CbMtxGain | src/scarlett_mixer.c:512-527 | knob n's marker is set from its decibel value even under the guard; only without the guard is its cell, and only its cell, written |
| Mixer.App.CbOutSrc | src/scarlett_mixer.c:529-537 | under the guard nothing is written; otherwise only output n's assign changes, to the widget's item |
| Mixer.App.CbOutGain | src/scarlett_mixer.c:539-549 | under the guard nothing is written; otherwise only output n's control changes: mute first, then the knob's decibel value |
| Mixer.App.CbMstGain | src/scarlett_mixer.c:551-559 | under the guard nothing is written; otherwise only the master control changes: mute first, then the knob's decibel value |
| Mixer.App.ResendSelector | src/scarlett_mixer.c:432-436 | the control becomes ResendEnum of it, an item (v+1) mod items then v; nothing else changes |
| Mixer.App.ResendMatrixGain | src/scarlett_mixer.c:455-464 | the control becomes ResendGain of it, FlipDb(v) then v; nothing else changes |
| Mixer.App.ResendOutputGain | src/scarlett_mixer.c:467-477 | the control becomes ResendOutput of it, mute !m then m, then the gain pair; nothing else changes |
| Mixer.App.ResendSelectors | src/scarlett_mixer.c:431-451 | the three selector loops resend the first 42 controls of the visiting order |
| Mixer.App.ResendGains | src/scarlett_mixer.c:453-478 | the matrix and output gain loops resend the remaining 111 controls of the order |
| Mixer.App.ForceResend | src/scarlett_mixer.c:427-480 | every control ends as Resent says, from the snapshot; with ResentAgrees it reads back what its widget shows, and master gain and Hi-Z are never written |
| Mixer.App.SetSrcSelValue | src/scarlett_mixer.c:492-500 | the widget takes the item; the hardware is written only when signals are enabled and the item changed |
| Mixer.App.SetMtxSelValue | src/scarlett_mixer.c:502-510 | the widget takes the item; the hardware is written only when signals are enabled and the item changed |
| Mixer.App.SetOutSelValue | src/scarlett_mixer.c:529-537 | the widget takes the item; the hardware is written only when signals are enabled and the item changed |
| Mixer.App.SetMtxGainValue | src/scarlett_mixer.c:512-527 | the knob takes the value and its marker follows ClickAfter; the cell is written only when signals are enabled and the value changed |
| Mixer.App.SetOutGainValue | src/scarlett_mixer.c:539-549 | the knob takes the value; the output is written only when signals are enabled and the value changed |
| Mixer.App.SetOutGainState | src/scarlett_mixer.c:539-549 | the knob takes the mute state; the output is written only when signals are enabled and the state changed |
| Mixer.App.SetMstGainValue | src/scarlett_mixer.c:551-559 | the master knob takes the value; the master control is written only when signals are enabled and the value changed |
| Mixer.App.SetMstGainState | src/scarlett_mixer.c:551-559 | the master knob takes the mute state; the master control is written only when signals are enabled and the state changed |
| Mixer.App.SetHizActive | src/scarlett_mixer.c:482-490 | the button takes the state; both switches are written only when signals are enabled and the state changed; no other control changes |
| Mixer.App.RefreshCaptures | src/scarlett_mixer.c:1121-1124 | under the guard the capture selectors take the hardware's items; nothing is written and nothing else changes |
| Mixer.App.RefreshMatrixRow | src/scarlett_mixer.c:1130-1134 | under the guard the six knobs of row r take the hardware's values and their markers follow ClickAfter; the row's input selector is left to RefreshMatrix, and nothing is written |
| Mixer.App.RefreshMatrix | src/scarlett_mixer.c:1126-1135 | all 18 rows: selectors, knobs and markers equal those of Reconciled, and nothing is written |
| Mixer.App.RefreshOutput | src/scarlett_mixer.c:1138-1140 | under the guard output o's knob takes the hardware's gain and then its mute state; nothing is written and no other widget changes |
| Mixer.App.RefreshOutputGains | src/scarlett_mixer.c:1137-1141 | the output knobs and mute states take the hardware's values, and nothing is written |
| Mixer.App.RefreshHizButton | src/scarlett_mixer.c:1148 | under the guard Hi-Z button i shows whether switch i reads item 1; nothing is written and no other widget changes |
| Mixer.App.RefreshHiz | src/scarlett_mixer.c:1147-1149 | the Hi-Z buttons show whether the switch is at item 1, and nothing is written |
| Mixer.App.RefreshOutSel | src/scarlett_mixer.c:1151-1154 | the output assigns take the hardware's items, and nothing is written |
| Mixer.App.PortEvent | src/scarlett_mixer.c:1078-1157 | no control is ever written; a close is requested exactly on a poll failure; a quiet poll changes nothing; otherwise the snapshot becomes Reconciled and the guard is clear afterwards |
| Mixer.App.ExclusiveKnob | src/scarlett_mixer.c:721-732 | one pass of the middle-click loop sets the next knob of the row through its widget setter |
| Mixer.App.ExclusiveStart | src/scarlett_mixer.c:714-721 | before the middle-click loop no knob of the row is set |
| Mixer.App.ExclusiveDone | src/scarlett_mixer.c:721-733 | after the loop the knobs hold the new row, the markers follow ClicksAfter, and the hardware is RowWrites |
| Mixer.App.ExclusiveAssign | src/scarlett_mixer.c:709-737 | the knobs become ExclusiveRow with unity `db_to_knob(0)`, and the markers follow each changed knob. Without the guard, every changed cell of the row, and nothing else, is written its new decibel value |
| Mixer.App.Toplevel | src/scarlett_mixer.c:770-925 | with signals disabled, every widget takes its initial value from the hardware through the lookups, so the app is an opened 18i6 with its widgets built |
| Mixer.Instantiate | src/scarlett_mixer.c:1016-1056 | returns no app exactly when open_mixer fails. Otherwise the app and its registry are freshly allocated, so a caller can go on to run port_event and the callbacks on it; the registry is the active elements, the widgets show the hardware, and signals are enabled again |

## Left out

- ALSA and poll plumbing is not modelled. That covers `snd_ctl_*`, `snd_mixer_*`, the poll descriptors and `snd_mixer_handle_events`, which only refreshes ALSA's cached values. The poll outcome is a parameter, `Mixer.Poll`, and the hardware is an abstract store.
- The dB range and volume steps of each control are not modelled. ALSA converts a dB value to the control's volume steps and clamps it to the control's range; the store keeps any written centibel value exactly, including the +127 dB intermediate of a resend, so `Controls.DbRoundTrip` holds for every d.
- Elements are values. The ALSA handle and the hardware state of one element are one `Controls.Control`. No aliasing between handles is modelled.
- `db_to_knob` and `knob_to_db` are taken as parameters, because they use floating-point square roots. Only the clamp to +6 dB is modelled.
- `get_dB_range` is not modelled, because nothing calls it.
- Widget construction, layout and drawing are not modelled: `create_faceplate`, `dial_annotation_db`, item-name copying in `set_select_values`, colours, and the labels.
- The robtk widget library is not part of this model. Its setters are modelled as storing the value and running the callback only when the value changes, with no clamping or quantisation.
- Mixer.App.Toplevel: builds the snapshot in one step. Only the resulting widget values are modelled, not widget creation.
- The LV2 lifecycle is not modelled: the card name taken from the command line in `instantiate`, `gui_cleanup`, `cleanup`, `extension_data`, `plugin_scale_mode`, `ui_enable`, `ui_disable`.
- Controls.WithEnum: an out-of-range item leaves the element unchanged. This follows the bound check of the ALSA library, which is not part of this model.
- Widgets are addressed by index. The source copies each index into the widget's name with `memcpy`.
- The 18i6 layout is a precondition, not a checked error. The source never checks that `ctrl_cnt` exceeds 157, nor that a selector has at least one item; `% mcnt` would divide by zero. `Controls.Fits` states both, and `Mixer.Instantiate` requires it of the card.
- The `assert` calls on capabilities are not modelled as checks. `has_playback_switch` and `is_enumerated` are preconditions of the accessors.
- Mixer.App.PortEvent: the source reads `revents` uninitialised when the revents query fails. The model treats that outcome as a poll failure.
- Mixer.App.PortEvent: the source still refreshes after asking the host to close. The model does the same and does not model the close itself.
- Mixer.App.CloseMixer: leaves `ctrl_cnt` as it was, as the source does. It does not model freeing the names.
- Mouse events other than a middle click on a matrix knob are left out, as is the sensitivity check before the exclusive assignment.
- Multi-threading is left out. The host calls every entry point from the GUI thread.
