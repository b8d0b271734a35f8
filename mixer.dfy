/**
 * The mixer application state (RobTkApp, src/scarlett_mixer.c:61-97): the
 * registry of active controls, the widget snapshot and the flag that keeps
 * widget callbacks from writing back to the hardware while the GUI is
 * being brought in line with it.
 */
module Mixer {
  import opened Wrappers
  import opened Topology
  import opened Controls
  import opened Widgets
  import opened Resend

  /** The card name open_mixer insists on. */
  const DeviceName: string := "Scarlett 18i6 USB"

  /**
   * What the sound system reports for the card: the status of opening its
   * control interface and querying its info (negative on failure), the card
   * name the info holds, the status of opening, attaching, registering and
   * loading the simple mixer, and the elements the mixer enumerates, in order.
   */
  datatype Card = Card(ctlStatus: int, name: Option<string>, mixerStatus: int, elems: seq<Control>)

  /** open_mixer succeeds exactly for a reachable card of the right name with at least one active element. */
  predicate OpenSucceeds(card: Card) {
    card.ctlStatus >= 0 && card.name == Some(DeviceName) && card.mixerStatus >= 0 && Active(card.elems) != []
  }

  /** open_mixer's first pass: count the active elements. */
  method CountActive(elems: seq<Control>) returns (cnt: nat)
    ensures cnt == |Active(elems)|
  {
    cnt := 0;
    for j := 0 to |elems|
      invariant cnt == |Active(elems[..j])|
    {
      ActiveSnoc(elems, j);
      if elems[j].active {
        cnt := cnt + 1;
      }
    }
    assert elems[..|elems|] == elems;
  }

  /** open_mixer's second pass: copy the active elements, in order, into a registry of cnt entries. */
  method CopyActive(elems: seq<Control>, cnt: nat) returns (a: array<Control>)
    requires cnt == |Active(elems)|
    ensures fresh(a) && a[..] == Active(elems)
  {
    a := new Control[cnt];
    var i := 0;
    for j := 0 to |elems|
      invariant i == |Active(elems[..j])| <= cnt
      invariant a[..i] == Active(elems[..j])
    {
      ActiveSnoc(elems, j);
      if elems[j].active {
        a[i] := elems[j];
        assert a[..i + 1] == a[..i] + [elems[j]];
        i := i + 1;
      }
    }
    assert elems[..|elems|] == elems;
    assert a[..] == a[..i];
  }

  /** The outcome of port_event's zero-timeout poll of the mixer's descriptors. */
  datatype Poll =
    | Quiet   // descriptors unavailable or nothing pending: the GUI is left alone
    | Failed  // POLLERR/POLLNVAL, or revents unreadable: closing is requested, the GUI is still refreshed
    | Ready   // events pending: they are drained and the GUI is refreshed

  /**
   * The hardware after the knobs of matrix row r went from `was` to `now`:
   * with signals enabled, cb_mtx_gain writes each changed knob's cell.
   */
  function RowWrites(hw: seq<Control>, r: nat, was: seq<real>, now: seq<real>, codec: Codec, enabled: bool): (w: seq<Control>)
    requires |hw| > MaxIndex && r < SMI && |was| == |now| == SMI * SMO
    ensures |w| == |hw|
  {
    seq(|hw|, j requires 0 <= j < |hw| =>
      var c := j - MatrixCtrlCr(0, r).value;
      if 0 <= c < SMO && enabled && now[r * SMO + c] != was[r * SMO + c]
      then WithDb(hw[j], KnobToDb(codec, now[r * SMO + c]))
      else hw[j])
  }

  /** Cell c of row r is the one RowWrites may write for knob r * 6 + c. */
  lemma RowWritesCell(hw: seq<Control>, r: nat, was: seq<real>, now: seq<real>, codec: Codec, enabled: bool, c: nat)
    requires |hw| > MaxIndex && r < SMI && |was| == |now| == SMI * SMO && c < SMO
    ensures MatrixCtrlCr(c, r).Some? && MatrixCtrlCr(c, r).value == MatrixCtrlCr(0, r).value + c < |hw|
    ensures RowWrites(hw, r, was, now, codec, enabled)[MatrixCtrlCr(c, r).value] ==
      if enabled && now[r * SMO + c] != was[r * SMO + c]
      then WithDb(hw[MatrixCtrlCr(c, r).value], KnobToDb(codec, now[r * SMO + c]))
      else hw[MatrixCtrlCr(c, r).value]
  {
    MatrixCtrlCrSpec(c, r);
    MatrixCtrlCrSpec(0, r);
  }

  /** Writing knob r * 6 + i's cell (or not, as cb_mtx_gain decides) extends the written prefix of RowWrites by one cell. */
  lemma RowWritesStep(before: seq<Control>, after: seq<Control>, hw: seq<Control>, r: nat, i: nat,
                      was: seq<real>, now: seq<real>, codec: Codec, enabled: bool)
    requires |hw| > MaxIndex && r < SMI && i < SMO && |was| == |now| == SMI * SMO
    requires before == RowWrites(hw, r, was, now, codec, enabled)[..MatrixCtrlCr(0, r).value + i] + hw[MatrixCtrlCr(0, r).value + i..]
    requires MatrixCtrlN(r * SMO + i).Some? && MatrixCtrlN(r * SMO + i).value < |before|
    requires after == if enabled && now[r * SMO + i] != was[r * SMO + i]
      then before[MatrixCtrlN(r * SMO + i).value := WithDb(before[MatrixCtrlN(r * SMO + i).value], KnobToDb(codec, now[r * SMO + i]))]
      else before
    ensures after == RowWrites(hw, r, was, now, codec, enabled)[..MatrixCtrlCr(0, r).value + i + 1] + hw[MatrixCtrlCr(0, r).value + i + 1..]
  {
    var w := RowWrites(hw, r, was, now, codec, enabled);
    MatrixCtrlNRowMajor(i, r);
    RowWritesCell(hw, r, was, now, codec, enabled, i);
    var idx := MatrixCtrlCr(i, r).value;
    assert before[idx] == hw[idx];
    assert after == before[idx := w[idx]];
    PrefixStep(w, hw, idx);
  }

  class App {
    var ctrl: array<Control>
    var ctrlCnt: nat
    var mixerOpen: bool
    var snap: Snapshot
    var disableSignals: bool
    const codec: Codec

    /** An opened 18i6 with its widgets built. */
    ghost predicate Valid()
      reads this, ctrl
    {
      ctrlCnt == ctrl.Length && snap.WellFormed() && Fits(ctrl[..])
    }

    /** The zero-filled state instantiate allocates: no controls, no widgets, signals enabled. */
    constructor (codec: Codec)
      ensures this.codec == codec && ctrl.Length == 0 && ctrlCnt == 0
      ensures !mixerOpen && !disableSignals && snap.mtxGain == []
    {
      this.codec := codec;
      ctrl := new Control[0];
      ctrlCnt := 0;
      mixerOpen := false;
      snap := Snapshot([], [], [], [], [], [], 0.0, false, [], []);
      disableSignals := false;
    }

    // -------------------------------------------------------------------------
    // open_mixer / close_mixer

    /**
     * open_mixer: check the card's name, then count the active elements and
     * copy them, in enumeration order, into a registry of exactly that size.
     */
    method OpenMixer(card: Card) returns (err: int)
      modifies this`ctrl, this`ctrlCnt, this`mixerOpen
      ensures err == 0 <==> OpenSucceeds(card)
      ensures err <= 0
      ensures card.ctlStatus < 0 ==> err == card.ctlStatus
      ensures card.ctlStatus >= 0 && card.name != Some(DeviceName) ==> err == -1
      ensures card.ctlStatus >= 0 && card.name == Some(DeviceName) && card.mixerStatus < 0 ==> err == card.mixerStatus
      ensures card.ctlStatus < 0 || card.name != Some(DeviceName) || card.mixerStatus < 0 ==>
        ctrl == old(ctrl) && ctrlCnt == old(ctrlCnt) && mixerOpen == old(mixerOpen)
      ensures card.ctlStatus >= 0 && card.name == Some(DeviceName) && card.mixerStatus >= 0 ==>
        mixerOpen && ctrlCnt == |Active(card.elems)|
      ensures card.ctlStatus >= 0 && card.name == Some(DeviceName) && card.mixerStatus >= 0 && Active(card.elems) == [] ==>
        err == -1 && ctrl == old(ctrl)
      ensures err == 0 ==> fresh(ctrl) && ctrl[..] == Active(card.elems) && ctrlCnt == ctrl.Length
    {
      if card.ctlStatus < 0 {
        return card.ctlStatus;
      }
      if card.name.None? || card.name.value != DeviceName {
        return -1;
      }
      if card.mixerStatus < 0 {
        return card.mixerStatus;
      }
      var elems := card.elems;

      var cnt := CountActive(elems);
      if cnt == 0 {
        mixerOpen, ctrlCnt := true, 0;
        return -1;
      }
      var a := CopyActive(elems, cnt);
      mixerOpen, ctrlCnt, ctrl := true, cnt, a;
      return 0;
    }

    /** close_mixer: release the registry and close the mixer; the count is left as it was. */
    method CloseMixer()
      requires mixerOpen
      modifies this`ctrl, this`mixerOpen
      ensures !mixerOpen && ctrl.Length == 0
    {
      ctrl := new Control[0];
      mixerOpen := false;
    }

    // -------------------------------------------------------------------------
    // Hardware writes on one control

    /** set_mute: write the playback switch of each playback channel among 0..2. */
    method SetMute(i: nat, muted: bool)
      requires i < ctrl.Length && ctrl[i].hasPlaybackSwitch
      modifies ctrl
      ensures ctrl[..] == old(ctrl[..])[i := WithMute(old(ctrl[i]), muted)]
      ensures Fits(old(ctrl[..])) ==> Fits(ctrl[..])
    {
      var v := if muted then 0 else 1;
      ghost var c0 := ctrl[i];
      for chn := 0 to Channels
        invariant forall j :: 0 <= j < ctrl.Length && j != i ==> ctrl[j] == old(ctrl[j])
        invariant ctrl[i] == c0.(channels := ctrl[i].channels)
        invariant |ctrl[i].channels| == |c0.channels|
        invariant forall k :: 0 <= k < |c0.channels| ==>
          ctrl[i].channels[k] ==
            if k < chn && c0.channels[k].playback then c0.channels[k].(switchValue := v) else c0.channels[k]
      {
        if HasPlayback(ctrl[i], chn) {
          ctrl[i] := WriteSwitch(ctrl[i], chn, v);
        }
      }
      assert ctrl[i].channels == WithMute(c0, muted).channels;
      assert ctrl[..] == old(ctrl[..])[i := WithMute(c0, muted)];
      if Fits(old(ctrl[..])) {
        FitsUpdate(old(ctrl[..]), i, WithMute(c0, muted));
      }
    }

    /**
     * set_dB: write 100 * db centibels to each channel among 0..2; the
     * "capture" branch calls the playback setter again, so it only rewrites
     * a playback channel with the same value.
     */
    method SetDb(i: nat, db: int)
      requires i < ctrl.Length
      modifies ctrl
      ensures ctrl[..] == old(ctrl[..])[i := WithDb(old(ctrl[i]), db)]
      ensures Fits(old(ctrl[..])) ==> Fits(ctrl[..])
    {
      var val := 100 * db;
      ghost var c0 := ctrl[i];
      for chn := 0 to Channels
        invariant forall j :: 0 <= j < ctrl.Length && j != i ==> ctrl[j] == old(ctrl[j])
        invariant ctrl[i] == c0.(channels := ctrl[i].channels)
        invariant |ctrl[i].channels| == |c0.channels|
        invariant forall k :: 0 <= k < |c0.channels| ==>
          ctrl[i].channels[k] ==
            if k < chn && c0.channels[k].playback then c0.channels[k].(centibels := val) else c0.channels[k]
      {
        if HasPlayback(ctrl[i], chn) {
          ctrl[i] := WriteCentibels(ctrl[i], chn, val);
        }
        if HasCapture(ctrl[i], chn) {
          ctrl[i] := WriteCentibels(ctrl[i], chn, val);
        }
      }
      assert ctrl[i].channels == WithDb(c0, db).channels;
      assert ctrl[..] == old(ctrl[..])[i := WithDb(c0, db)];
      if Fits(old(ctrl[..])) {
        FitsUpdate(old(ctrl[..]), i, WithDb(c0, db));
      }
    }

    /** set_enum: select item v of channel 0. */
    method SetEnum(i: nat, v: int)
      requires i < ctrl.Length && ctrl[i].isEnumerated
      modifies ctrl
      ensures ctrl[..] == old(ctrl[..])[i := WithEnum(old(ctrl[i]), v)]
      ensures Fits(old(ctrl[..])) ==> Fits(ctrl[..])
    {
      ctrl[i] := WithEnum(ctrl[i], v);
      if Fits(old(ctrl[..])) {
        FitsUpdate(old(ctrl[..]), i, ctrl[i]);
      }
    }

    // -------------------------------------------------------------------------
    // Widget callbacks: each returns before touching the hardware while
    // disableSignals is set; cb_mtx_gain updates its knob's marker first.

    /** cb_set_hiz: write both Hi-Z buttons to their impedance switches (item 1 is Hi-Z). */
    method CbSetHiz()
      requires Valid()
      modifies ctrl
      ensures Valid()
      ensures disableSignals ==> ctrl[..] == old(ctrl[..])
      ensures !disableSignals ==> forall k :: 0 <= k < NHIZ ==>
        ctrl[Hiz(k).value] == WithEnum(old(ctrl[Hiz(k).value]), if snap.hiz[k] then 1 else 0)
      ensures forall j :: 0 <= j < ctrl.Length && j != Hiz(0).value && j != Hiz(1).value ==> ctrl[j] == old(ctrl[j])
    {
      if disableSignals {
        return;
      }
      for i := 0 to NHIZ
        invariant Valid()
        invariant forall k :: 0 <= k < i ==>
          ctrl[Hiz(k).value] == WithEnum(old(ctrl[Hiz(k).value]), if snap.hiz[k] then 1 else 0)
        invariant forall j :: 0 <= j < ctrl.Length && (j < 11 || 11 + i <= j) ==> ctrl[j] == old(ctrl[j])
      {
        var val := if snap.hiz[i] then 1 else 0;
        CapableAt(ctrl[..], HiZ(i));
        SetEnum(Hiz(i).value, val);
      }
    }

    /** cb_src_sel: write capture selector n's item to its control. */
    method CbSrcSel(n: nat)
      requires Valid() && n < SIN
      modifies ctrl
      ensures Valid()
      ensures disableSignals ==> ctrl[..] == old(ctrl[..])
      ensures !disableSignals ==>
        ctrl[..] == old(ctrl[..])[SrcSel(n).value := WithEnum(old(ctrl[SrcSel(n).value]), snap.srcSel[n])]
    {
      if disableSignals {
        return;
      }
      CapableAt(ctrl[..], Capture(n));
      SetEnum(SrcSel(n).value, snap.srcSel[n]);
    }

    /** cb_mtx_src: write matrix row n's input selector item to its control. */
    method CbMtxSrc(n: nat)
      requires Valid() && n < SMI
      modifies ctrl
      ensures Valid()
      ensures disableSignals ==> ctrl[..] == old(ctrl[..])
      ensures !disableSignals ==>
        ctrl[..] == old(ctrl[..])[MatrixSel(n).value := WithEnum(old(ctrl[MatrixSel(n).value]), snap.mtxSel[n])]
    {
      if disableSignals {
        return;
      }
      CapableAt(ctrl[..], MatrixInput(n));
      SetEnum(MatrixSel(n).value, snap.mtxSel[n]);
    }

    /**
     * cb_mtx_gain: set knob n's marker from its decibel value (even while
     * signals are disabled), then write that value to the matrix cell.
     */
    method CbMtxGain(n: nat)
      requires Valid() && n < SMI * SMO
      modifies this`snap, ctrl
      ensures Valid()
      ensures MatrixCtrlN(n).Some? && MatrixCtrlN(n).value < ctrl.Length
      ensures snap == old(snap).(clickState := old(snap.clickState)[n := ClickOf(KnobToDb(codec, snap.mtxGain[n]))])
      ensures disableSignals ==> ctrl[..] == old(ctrl[..])
      ensures !disableSignals ==>
        ctrl[..] == old(ctrl[..])[MatrixCtrlN(n).value :=
          WithDb(old(ctrl[MatrixCtrlN(n).value]), KnobToDb(codec, snap.mtxGain[n]))]
    {
      LookupBound(MatrixCell(n % SMO, n / SMO));
      var val := KnobToDb(codec, snap.mtxGain[n]);
      var click := if val == -128 then 1 else if val == 0 then 2 else 0;
      snap := snap.(clickState := snap.clickState[n := click]);
      if disableSignals {
        return;
      }
      SetDb(MatrixCtrlN(n).value, val);
    }

    /** cb_out_src: write output channel n's assignment to its control. */
    method CbOutSrc(n: nat)
      requires Valid() && n < SOUT
      modifies ctrl
      ensures Valid()
      ensures disableSignals ==> ctrl[..] == old(ctrl[..])
      ensures !disableSignals ==>
        ctrl[..] == old(ctrl[..])[OutSel(n).value := WithEnum(old(ctrl[OutSel(n).value]), snap.outSel[n])]
    {
      if disableSignals {
        return;
      }
      CapableAt(ctrl[..], OutputSource(n));
      SetEnum(OutSel(n).value, snap.outSel[n]);
    }

    /** cb_out_gain: write output n's mute state, then its knob's decibel value. */
    method CbOutGain(n: nat)
      requires Valid() && n < SMST
      modifies ctrl
      ensures Valid()
      ensures disableSignals ==> ctrl[..] == old(ctrl[..])
      ensures !disableSignals ==> ctrl[..] == old(ctrl[..])[OutGain(n).value :=
        WithDb(WithMute(old(ctrl[OutGain(n).value]), snap.outMute[n]), KnobToDb(codec, snap.outGain[n]))]
    {
      if disableSignals {
        return;
      }
      CapableAt(ctrl[..], Output(n));
      SetMute(OutGain(n).value, snap.outMute[n]);
      SetDb(OutGain(n).value, KnobToDb(codec, snap.outGain[n]));
    }

    /** cb_mst_gain: write the master mute state, then the master knob's decibel value. */
    method CbMstGain()
      requires Valid()
      modifies ctrl
      ensures Valid()
      ensures disableSignals ==> ctrl[..] == old(ctrl[..])
      ensures !disableSignals ==> ctrl[..] == old(ctrl[..])[MstGain() :=
        WithDb(WithMute(old(ctrl[MstGain()]), snap.mstMute), KnobToDb(codec, snap.mstGain))]
    {
      if disableSignals {
        return;
      }
      CapableAt(ctrl[..], Master);
      SetMute(MstGain(), snap.mstMute);
      SetDb(MstGain(), KnobToDb(codec, snap.mstGain));
    }

    // -------------------------------------------------------------------------
    // Force-resend (cb_btn_reset)

    /** One selector of cb_btn_reset: item (val + 1) mod mcnt, then val. */
    method ResendSelector(i: nat, val: nat)
      requires i < ctrl.Length && ctrl[i].isEnumerated && ctrl[i].items > 0
      modifies ctrl
      ensures ctrl[..] == old(ctrl[..])[i := ResendEnum(old(ctrl[i]), val)]
      ensures Fits(old(ctrl[..])) ==> Fits(ctrl[..])
    {
      var mcnt := ctrl[i].items;
      SetEnum(i, (val + 1) % mcnt);
      SetEnum(i, val);
    }

    /** One matrix gain of cb_btn_reset: +127 or -128 dB, whichever differs, then val. */
    method ResendMatrixGain(i: nat, val: int)
      requires i < ctrl.Length
      modifies ctrl
      ensures ctrl[..] == old(ctrl[..])[i := ResendGain(old(ctrl[i]), val)]
      ensures Fits(old(ctrl[..])) ==> Fits(ctrl[..])
    {
      if val == -128 {
        SetDb(i, 127);
      } else {
        SetDb(i, -128);
      }
      SetDb(i, val);
    }

    /** One output of cb_btn_reset: mute !mute then mute, then the gain pair. */
    method ResendOutputGain(i: nat, mute: bool, val: int)
      requires i < ctrl.Length && ctrl[i].hasPlaybackSwitch
      modifies ctrl
      ensures ctrl[..] == old(ctrl[..])[i := ResendOutput(old(ctrl[i]), mute, val)]
      ensures Fits(old(ctrl[..])) ==> Fits(ctrl[..])
    {
      SetMute(i, !mute);
      SetMute(i, mute);
      ResendMatrixGain(i, val);
    }

    /** The capture-source, matrix-input and output-assign loops of cb_btn_reset. */
    method ResendSelectors(ghost hw: seq<Control>)
      requires Valid() && Fits(hw) && ResentUpTo(ctrl[..], hw, 0, snap, codec)
      modifies ctrl
      ensures Valid() && ResentUpTo(ctrl[..], hw, SIN + SMI + SOUT, snap, codec)
    {
      for r := 0 to SIN
        invariant Valid() && ResentUpTo(ctrl[..], hw, r, snap, codec)
      {
        ResentStep(ctrl[..], hw, r, snap, codec, Capture(r));
        ResendSelector(SrcSel(r).value, snap.srcSel[r]);
      }
      for r := 0 to SMI
        invariant Valid() && ResentUpTo(ctrl[..], hw, SIN + r, snap, codec)
      {
        ResentStep(ctrl[..], hw, SIN + r, snap, codec, MatrixInput(r));
        ResendSelector(MatrixSel(r).value, snap.mtxSel[r]);
      }
      for o := 0 to SOUT
        invariant Valid() && ResentUpTo(ctrl[..], hw, SIN + SMI + o, snap, codec)
      {
        ResentStep(ctrl[..], hw, SIN + SMI + o, snap, codec, OutputSource(o));
        ResendSelector(OutSel(o).value, snap.outSel[o]);
      }
    }

    /** The matrix-gain and output-gain loops of cb_btn_reset. */
    method ResendGains(ghost hw: seq<Control>)
      requires Valid() && Fits(hw) && ResentUpTo(ctrl[..], hw, SIN + SMI + SOUT, snap, codec)
      modifies ctrl
      ensures Valid() && ResentUpTo(ctrl[..], hw, Visited, snap, codec)
    {
      ghost var base := SIN + SMI + SOUT;
      for r := 0 to SMI
        invariant Valid() && ResentUpTo(ctrl[..], hw, base + r * SMO, snap, codec)
      {
        for c := 0 to SMO
          invariant Valid() && ResentUpTo(ctrl[..], hw, base + r * SMO + c, snap, codec)
        {
          ResentStep(ctrl[..], hw, base + r * SMO + c, snap, codec, MatrixCell(c, r));
          var val := KnobToDb(codec, snap.mtxGain[r * SMO + c]);
          ResendMatrixGain(MatrixCtrlCr(c, r).value, val);
        }
      }
      for n := 0 to SMST
        invariant Valid() && ResentUpTo(ctrl[..], hw, base + SMI * SMO + n, snap, codec)
      {
        ResentStep(ctrl[..], hw, base + SMI * SMO + n, snap, codec, Output(n));
        var mute := snap.outMute[n];
        var val := KnobToDb(codec, snap.outGain[n]);
        ResendOutputGain(OutGain(n).value, mute, val);
      }
    }

    /**
     * cb_btn_reset: write every selector, matrix gain and output gain a
     * different value and then the snapshot's, so that edge-triggered
     * hardware latches it again.  Master gain and Hi-Z are not visited.
     */
    method ForceResend()
      requires Valid()
      modifies ctrl
      ensures Valid()
      ensures forall i :: 0 <= i < ctrl.Length ==> ctrl[i] == Resent(old(ctrl[i]), CoordOf(i), snap, codec)
    {
      ghost var hw := ctrl[..];
      assert ResentUpTo(ctrl[..], hw, 0, snap, codec) by {
        forall i | 0 <= i < |hw| ensures ctrl[..][i] == ResentSoFar(hw[i], i, 0, snap, codec) { }
      }
      ResendSelectors(hw);
      ResendGains(hw);
      ResentDone(ctrl[..], hw, snap, codec);
    }

    // -------------------------------------------------------------------------
    // Widget setters: a robtk setter stores the new value and runs the
    // widget's callback only when the value actually changes.

    /** robtk_select_set_value on capture selector r. */
    method SetSrcSelValue(r: nat, v: nat)
      requires Valid() && r < SIN
      modifies this`snap, ctrl
      ensures Valid()
      ensures snap == old(snap).(srcSel := old(snap.srcSel)[r := v])
      ensures disableSignals || v == old(snap.srcSel[r]) ==> ctrl[..] == old(ctrl[..])
      ensures !disableSignals && v != old(snap.srcSel[r]) ==>
        ctrl[..] == old(ctrl[..])[SrcSel(r).value := WithEnum(old(ctrl[SrcSel(r).value]), v)]
    {
      if v != snap.srcSel[r] {
        snap := snap.(srcSel := snap.srcSel[r := v]);
        CbSrcSel(r);
      }
    }

    /** robtk_select_set_value on the input selector of matrix row r. */
    method SetMtxSelValue(r: nat, v: nat)
      requires Valid() && r < SMI
      modifies this`snap, ctrl
      ensures Valid()
      ensures snap == old(snap).(mtxSel := old(snap.mtxSel)[r := v])
      ensures disableSignals || v == old(snap.mtxSel[r]) ==> ctrl[..] == old(ctrl[..])
      ensures !disableSignals && v != old(snap.mtxSel[r]) ==>
        ctrl[..] == old(ctrl[..])[MatrixSel(r).value := WithEnum(old(ctrl[MatrixSel(r).value]), v)]
    {
      if v != snap.mtxSel[r] {
        snap := snap.(mtxSel := snap.mtxSel[r := v]);
        CbMtxSrc(r);
      }
    }

    /** robtk_select_set_value on the assignment selector of output o. */
    method SetOutSelValue(o: nat, v: nat)
      requires Valid() && o < SOUT
      modifies this`snap, ctrl
      ensures Valid()
      ensures snap == old(snap).(outSel := old(snap.outSel)[o := v])
      ensures disableSignals || v == old(snap.outSel[o]) ==> ctrl[..] == old(ctrl[..])
      ensures !disableSignals && v != old(snap.outSel[o]) ==>
        ctrl[..] == old(ctrl[..])[OutSel(o).value := WithEnum(old(ctrl[OutSel(o).value]), v)]
    {
      if v != snap.outSel[o] {
        snap := snap.(outSel := snap.outSel[o := v]);
        CbOutSrc(o);
      }
    }

    /** robtk_dial_set_value on matrix knob n; cb_mtx_gain also renews the knob's marker. */
    method SetMtxGainValue(n: nat, v: real)
      requires Valid() && n < SMI * SMO
      modifies this`snap, ctrl
      ensures Valid()
      ensures MatrixCtrlN(n).Some? && MatrixCtrlN(n).value < ctrl.Length
      ensures snap == old(snap).(mtxGain := old(snap.mtxGain)[n := v],
        clickState := old(snap.clickState)[n := ClickAfter(codec, old(snap.mtxGain[n]), old(snap.clickState[n]), v)])
      ensures disableSignals || v == old(snap.mtxGain[n]) ==> ctrl[..] == old(ctrl[..])
      ensures !disableSignals && v != old(snap.mtxGain[n]) ==>
        ctrl[..] == old(ctrl[..])[MatrixCtrlN(n).value := WithDb(old(ctrl[MatrixCtrlN(n).value]), KnobToDb(codec, v))]
    {
      LookupBound(MatrixCell(n % SMO, n / SMO));
      if v != snap.mtxGain[n] {
        snap := snap.(mtxGain := snap.mtxGain[n := v]);
        CbMtxGain(n);
      }
    }

    /** robtk_dial_set_value on the knob of output o. */
    method SetOutGainValue(o: nat, v: real)
      requires Valid() && o < SMST
      modifies this`snap, ctrl
      ensures Valid()
      ensures snap == old(snap).(outGain := old(snap.outGain)[o := v])
      ensures disableSignals || v == old(snap.outGain[o]) ==> ctrl[..] == old(ctrl[..])
      ensures !disableSignals && v != old(snap.outGain[o]) ==> ctrl[..] == old(ctrl[..])[OutGain(o).value :=
        WithDb(WithMute(old(ctrl[OutGain(o).value]), snap.outMute[o]), KnobToDb(codec, v))]
    {
      if v != snap.outGain[o] {
        snap := snap.(outGain := snap.outGain[o := v]);
        CbOutGain(o);
      }
    }

    /** robtk_dial_set_state on the knob of output o (state 1 is muted). */
    method SetOutGainState(o: nat, muted: bool)
      requires Valid() && o < SMST
      modifies this`snap, ctrl
      ensures Valid()
      ensures snap == old(snap).(outMute := old(snap.outMute)[o := muted])
      ensures disableSignals || muted == old(snap.outMute[o]) ==> ctrl[..] == old(ctrl[..])
      ensures !disableSignals && muted != old(snap.outMute[o]) ==> ctrl[..] == old(ctrl[..])[OutGain(o).value :=
        WithDb(WithMute(old(ctrl[OutGain(o).value]), muted), KnobToDb(codec, snap.outGain[o]))]
    {
      if muted != snap.outMute[o] {
        snap := snap.(outMute := snap.outMute[o := muted]);
        CbOutGain(o);
      }
    }

    /** robtk_dial_set_value on the master knob. */
    method SetMstGainValue(v: real)
      requires Valid()
      modifies this`snap, ctrl
      ensures Valid()
      ensures snap == old(snap).(mstGain := v)
      ensures disableSignals || v == old(snap.mstGain) ==> ctrl[..] == old(ctrl[..])
      ensures !disableSignals && v != old(snap.mstGain) ==> ctrl[..] == old(ctrl[..])[MstGain() :=
        WithDb(WithMute(old(ctrl[MstGain()]), snap.mstMute), KnobToDb(codec, v))]
    {
      if v != snap.mstGain {
        snap := snap.(mstGain := v);
        CbMstGain();
      }
    }

    /** robtk_dial_set_state on the master knob (state 1 is muted). */
    method SetMstGainState(muted: bool)
      requires Valid()
      modifies this`snap, ctrl
      ensures Valid()
      ensures snap == old(snap).(mstMute := muted)
      ensures disableSignals || muted == old(snap.mstMute) ==> ctrl[..] == old(ctrl[..])
      ensures !disableSignals && muted != old(snap.mstMute) ==> ctrl[..] == old(ctrl[..])[MstGain() :=
        WithDb(WithMute(old(ctrl[MstGain()]), muted), KnobToDb(codec, snap.mstGain))]
    {
      if muted != snap.mstMute {
        snap := snap.(mstMute := muted);
        CbMstGain();
      }
    }

    /** robtk_cbtn_set_active on Hi-Z button i; cb_set_hiz writes both buttons. */
    method SetHizActive(i: nat, active: bool)
      requires Valid() && i < NHIZ
      modifies this`snap, ctrl
      ensures Valid()
      ensures snap == old(snap).(hiz := old(snap.hiz)[i := active])
      ensures disableSignals || active == old(snap.hiz[i]) ==> ctrl[..] == old(ctrl[..])
      ensures !disableSignals && active != old(snap.hiz[i]) ==> forall k :: 0 <= k < NHIZ ==>
        ctrl[Hiz(k).value] == WithEnum(old(ctrl[Hiz(k).value]), if snap.hiz[k] then 1 else 0)
      ensures forall j :: 0 <= j < ctrl.Length && j != Hiz(0).value && j != Hiz(1).value ==> ctrl[j] == old(ctrl[j])
    {
      if active != snap.hiz[i] {
        snap := snap.(hiz := snap.hiz[i := active]);
        CbSetHiz();
      }
    }

    // -------------------------------------------------------------------------
    // port_event: bring every widget in line with the hardware

    /** port_event's capture-source loop, run with signals disabled. */
    method RefreshCaptures()
      requires Valid() && disableSignals
      modifies this`snap, ctrl
      ensures Valid() && ctrl[..] == old(ctrl[..])
      ensures snap == old(snap).(srcSel := Readback(ctrl[..], codec).srcSel)
    {
      ghost var hw := ctrl[..];
      ghost var s0 := snap;
      ghost var m := Readback(hw, codec);
      PrefixWhole(m.srcSel, s0.srcSel);
      for r := 0 to SIN
        invariant Valid() && ctrl[..] == hw
        invariant snap == s0.(srcSel := m.srcSel[..r] + s0.srcSel[r..])
      {
        SetSrcSelValue(r, GetEnumAt(ctrl[..], Capture(r)));
        PrefixStep(m.srcSel, s0.srcSel, r);
      }
    }

    /** The six knobs of matrix row r in port_event's matrix loop, towards knob positions g and markers cl. */
    method RefreshMatrixRow(r: nat, ghost s0: Snapshot, ghost g: seq<real>, ghost cl: seq<int>)
      requires Valid() && disableSignals && r < SMI && s0.WellFormed()
      requires g == MatrixKnobs(ctrl[..], codec) && cl == ClicksAfter(codec, s0.mtxGain, s0.clickState, g)
      requires snap == s0.(mtxSel := snap.mtxSel, mtxGain := g[..r * SMO] + s0.mtxGain[r * SMO..],
        clickState := cl[..r * SMO] + s0.clickState[r * SMO..])
      modifies this`snap, ctrl
      ensures Valid() && ctrl[..] == old(ctrl[..])
      ensures snap == s0.(mtxSel := old(snap.mtxSel), mtxGain := g[..(r + 1) * SMO] + s0.mtxGain[(r + 1) * SMO..],
        clickState := cl[..(r + 1) * SMO] + s0.clickState[(r + 1) * SMO..])
    {
      ghost var hw := ctrl[..];
      ghost var sel := snap.mtxSel;
      for c := 0 to SMO
        invariant Valid() && ctrl[..] == hw
        invariant snap == s0.(mtxSel := sel, mtxGain := g[..r * SMO + c] + s0.mtxGain[r * SMO + c..],
          clickState := cl[..r * SMO + c] + s0.clickState[r * SMO + c..])
      {
        var n := r * SMO + c;
        MatrixCtrlNRowMajor(c, r);
        SetMtxGainValue(n, KnobOf(codec, ctrl[MatrixCtrlCr(c, r).value]));
        PrefixStep(g, s0.mtxGain, n);
        PrefixStep(cl, s0.clickState, n);
      }
      assert r * SMO + SMO == (r + 1) * SMO;
    }

    /** port_event's matrix loop: each row's input selector, then its six knobs. */
    method RefreshMatrix()
      requires Valid() && disableSignals
      modifies this`snap, ctrl
      ensures Valid() && ctrl[..] == old(ctrl[..])
      ensures snap == old(snap).(mtxSel := Reconciled(old(snap), ctrl[..], codec).mtxSel,
        mtxGain := Reconciled(old(snap), ctrl[..], codec).mtxGain,
        clickState := Reconciled(old(snap), ctrl[..], codec).clickState)
    {
      ghost var hw := ctrl[..];
      ghost var s0 := snap;
      ghost var t := Reconciled(s0, hw, codec);
      ghost var g := MatrixKnobs(hw, codec);
      ghost var cl := ClicksAfter(codec, s0.mtxGain, s0.clickState, g);
      assert t.mtxGain == g && t.clickState == cl;
      PrefixWhole(t.mtxSel, s0.mtxSel);
      PrefixWhole(g, s0.mtxGain);
      PrefixWhole(cl, s0.clickState);
      for r := 0 to SMI
        invariant Valid() && ctrl[..] == hw
        invariant snap == s0.(mtxSel := t.mtxSel[..r] + s0.mtxSel[r..],
          mtxGain := g[..r * SMO] + s0.mtxGain[r * SMO..],
          clickState := cl[..r * SMO] + s0.clickState[r * SMO..])
      {
        SetMtxSelValue(r, GetEnumAt(ctrl[..], MatrixInput(r)));
        PrefixStep(t.mtxSel, s0.mtxSel, r);
        RefreshMatrixRow(r, s0, g, cl);
      }
    }

    /** One output of port_event's output loop: its knob's value, then its mute state. */
    method RefreshOutput(o: nat)
      requires Valid() && disableSignals && o < SMST
      modifies this`snap, ctrl
      ensures Valid() && ctrl[..] == old(ctrl[..])
      ensures snap == old(snap).(outGain := old(snap.outGain)[o := KnobOf(codec, ctrl[OutGain(o).value])],
        outMute := old(snap.outMute)[o := GetMuteAt(ctrl[..], Output(o))])
    {
      SetOutGainValue(o, KnobOf(codec, ctrl[OutGain(o).value]));
      SetOutGainState(o, GetMuteAt(ctrl[..], Output(o)));
    }

    /** port_event's output loop: each output knob's value, then its mute state. */
    method RefreshOutputGains()
      requires Valid() && disableSignals
      modifies this`snap, ctrl
      ensures Valid() && ctrl[..] == old(ctrl[..])
      ensures snap == old(snap).(outGain := Readback(ctrl[..], codec).outGain, outMute := Readback(ctrl[..], codec).outMute)
    {
      ghost var hw := ctrl[..];
      ghost var s0 := snap;
      ghost var m := Readback(hw, codec);
      PrefixWhole(m.outGain, s0.outGain);
      PrefixWhole(m.outMute, s0.outMute);
      for o := 0 to SMST
        invariant Valid() && ctrl[..] == hw
        invariant snap == s0.(outGain := m.outGain[..o] + s0.outGain[o..], outMute := m.outMute[..o] + s0.outMute[o..])
      {
        RefreshOutput(o);
        PrefixStep(m.outGain, s0.outGain, o);
        PrefixStep(m.outMute, s0.outMute, o);
      }
    }

    /** One Hi-Z button of port_event's Hi-Z loop: it shows whether switch i reads item 1. */
    method RefreshHizButton(i: nat)
      requires Valid() && disableSignals && i < NHIZ
      modifies this`snap, ctrl
      ensures Valid() && ctrl[..] == old(ctrl[..])
      ensures snap == old(snap).(hiz := old(snap.hiz)[i := HizActive(ctrl[..], i)])
    {
      SetHizActive(i, HizActive(ctrl[..], i));
    }

    /** port_event's Hi-Z loop. */
    method RefreshHiz()
      requires Valid() && disableSignals
      modifies this`snap, ctrl
      ensures Valid() && ctrl[..] == old(ctrl[..])
      ensures snap == old(snap).(hiz := Readback(ctrl[..], codec).hiz)
    {
      ghost var hw := ctrl[..];
      ghost var s0 := snap;
      ghost var m := Readback(hw, codec);
      PrefixWhole(m.hiz, s0.hiz);
      for i := 0 to NHIZ
        invariant Valid() && ctrl[..] == hw
        invariant snap == s0.(hiz := m.hiz[..i] + s0.hiz[i..])
      {
        RefreshHizButton(i);
        PrefixStep(m.hiz, s0.hiz, i);
      }
    }

    /** port_event's output-assign loop. */
    method RefreshOutSel()
      requires Valid() && disableSignals
      modifies this`snap, ctrl
      ensures Valid() && ctrl[..] == old(ctrl[..])
      ensures snap == old(snap).(outSel := Readback(ctrl[..], codec).outSel)
    {
      ghost var hw := ctrl[..];
      ghost var s0 := snap;
      ghost var m := Readback(hw, codec);
      PrefixWhole(m.outSel, s0.outSel);
      for o := 0 to SOUT
        invariant Valid() && ctrl[..] == hw
        invariant snap == s0.(outSel := m.outSel[..o] + s0.outSel[o..])
      {
        SetOutSelValue(o, GetEnumAt(ctrl[..], OutputSource(o)));
        PrefixStep(m.outSel, s0.outSel, o);
      }
    }

    /**
     * port_event: poll the mixer without waiting; when something is pending
     * (or the poll failed, which also asks the host to close the window),
     * re-read every control into its widget with signals disabled, so that no
     * callback writes back to the hardware.
     */
    method PortEvent(poll: Poll) returns (closeRequested: bool)
      requires Valid() && mixerOpen
      modifies this`snap, this`disableSignals, ctrl
      ensures Valid() && ctrl[..] == old(ctrl[..])
      ensures closeRequested <==> poll == Failed
      ensures poll == Quiet ==> snap == old(snap) && disableSignals == old(disableSignals)
      ensures poll != Quiet ==> snap == Reconciled(old(snap), ctrl[..], codec) && !disableSignals
    {
      if poll == Quiet {
        return false;
      }
      closeRequested := poll == Failed;
      ghost var t := Reconciled(snap, ctrl[..], codec);
      ghost var m := Readback(ctrl[..], codec);
      disableSignals := true;
      RefreshCaptures();
      RefreshMatrix();
      RefreshOutputGains();
      CapableAt(ctrl[..], Master);
      SetMstGainValue(KnobOf(codec, ctrl[MstGain()]));
      SetMstGainState(GetMuteAt(ctrl[..], Master));
      RefreshHiz();
      RefreshOutSel();
      disableSignals := false;
      assert t.(clickState := []) == m.(clickState := []);
    }

    // -------------------------------------------------------------------------
    // Middle click on a matrix knob

    /**
     * The middle-click loop on row r has set the first k knobs of the row to
     * their values in h, starting from snapshot s0 and hardware hw.
     */
    ghost predicate ExclusiveProgress(r: nat, k: nat, s0: Snapshot, h: seq<real>, hw: seq<Control>)
      reads this, ctrl
      requires r < SMI && k <= SMO && s0.WellFormed() && |h| == SMI * SMO && |hw| > MaxIndex
    {
      snap == s0.(mtxGain := h[..r * SMO + k] + s0.mtxGain[r * SMO + k..],
        clickState := ClicksAfter(codec, s0.mtxGain, s0.clickState, h)[..r * SMO + k] + s0.clickState[r * SMO + k..]) &&
      ctrl[..] == RowWrites(hw, r, s0.mtxGain, h, codec, !disableSignals)[..MatrixCtrlCr(0, r).value + k] +
        hw[MatrixCtrlCr(0, r).value + k..]
    }

    /** One pass of the middle-click loop: knob r * 6 + i of the row is set to v, its value in h. */
    method ExclusiveKnob(r: nat, i: nat, v: real, ghost s0: Snapshot, ghost h: seq<real>, ghost hw: seq<Control>)
      requires Valid() && r < SMI && i < SMO && s0.WellFormed() && |h| == SMI * SMO && |hw| == ctrl.Length
      requires v == h[r * SMO + i] && ExclusiveProgress(r, i, s0, h, hw)
      modifies this`snap, ctrl
      ensures Valid() && ExclusiveProgress(r, i + 1, s0, h, hw)
    {
      var nn := r * SMO + i;
      ghost var before := ctrl[..];
      assert snap.mtxGain[nn] == s0.mtxGain[nn] && snap.clickState[nn] == s0.clickState[nn];
      LookupBound(MatrixCell(i, r));
      MatrixCtrlNRowMajor(i, r);
      SetMtxGainValue(nn, v);
      RowWritesStep(before, ctrl[..], hw, r, i, s0.mtxGain, h, codec, !disableSignals);
      PrefixStep(h, s0.mtxGain, nn);
      PrefixStep(ClicksAfter(codec, s0.mtxGain, s0.clickState, h), s0.clickState, nn);
    }

    /** Before the middle-click loop no knob of the row has been set. */
    lemma ExclusiveStart(r: nat, s0: Snapshot, h: seq<real>, hw: seq<Control>)
      requires Valid() && r < SMI && s0 == snap && hw == ctrl[..]
      requires |h| == SMI * SMO && forall k :: 0 <= k < r * SMO ==> h[k] == s0.mtxGain[k]
      ensures ExclusiveProgress(r, 0, s0, h, hw)
    {
      var cl := ClicksAfter(codec, s0.mtxGain, s0.clickState, h);
      PrefixKeep(h, s0.mtxGain, r * SMO);
      PrefixKeep(cl, s0.clickState, r * SMO);
      PrefixKeep(RowWrites(hw, r, s0.mtxGain, h, codec, !disableSignals), hw, MatrixCtrlCr(0, r).value);
    }

    /** After the middle-click loop the row holds h, and the rest of h agrees with s0. */
    lemma ExclusiveDone(r: nat, s0: Snapshot, h: seq<real>, hw: seq<Control>)
      requires r < SMI && s0.WellFormed() && |h| == SMI * SMO && |hw| > MaxIndex
      requires forall k :: (r + 1) * SMO <= k < SMI * SMO ==> h[k] == s0.mtxGain[k]
      requires ExclusiveProgress(r, SMO, s0, h, hw)
      ensures snap == s0.(mtxGain := h, clickState := ClicksAfter(codec, s0.mtxGain, s0.clickState, h))
      ensures ctrl[..] == RowWrites(hw, r, s0.mtxGain, h, codec, !disableSignals)
    {
      assert r * SMO + SMO == (r + 1) * SMO;
      PrefixAgree(h, s0.mtxGain, r * SMO + SMO);
      PrefixAgree(ClicksAfter(codec, s0.mtxGain, s0.clickState, h), s0.clickState, r * SMO + SMO);
      PrefixAgree(RowWrites(hw, r, s0.mtxGain, h, codec, !disableSignals), hw, MatrixCtrlCr(0, r).value + SMO);
    }

    /**
     * robtk_dial_mouse_intercept with the middle button on matrix knob n:
     * the other knobs of n's row go to 0, knob n to unity gain if it was at
     * 0 and to 0 otherwise; every knob that changes runs cb_mtx_gain.
     */
    method ExclusiveAssign(n: nat)
      requires Valid() && n < SMI * SMO
      modifies this`snap, ctrl
      ensures Valid()
      ensures snap == old(snap).(mtxGain := ExclusiveRow(old(snap.mtxGain), n, codec.dbToKnob(0.0)),
        clickState := ClicksAfter(codec, old(snap.mtxGain), old(snap.clickState), snap.mtxGain))
      ensures ctrl[..] == RowWrites(old(ctrl[..]), n / SMO, old(snap.mtxGain), snap.mtxGain, codec, !disableSignals)
    {
      var c := n % SMO;
      var r := n / SMO;
      var unity := codec.dbToKnob(0.0);
      var cur := snap.mtxGain[n];
      ghost var s0 := snap;
      ghost var hw := ctrl[..];
      ghost var h := ExclusiveRow(s0.mtxGain, n, unity);
      ExclusiveStart(r, s0, h, hw);
      for i := 0 to SMO
        invariant Valid() && ExclusiveProgress(r, i, s0, h, hw)
      {
        ExclusiveRowAt(s0.mtxGain, n, unity, i);
        var v := if i == c then (if cur == 0.0 then unity else 0.0) else 0.0;
        ExclusiveKnob(r, i, v, s0, h, hw);
      }
      ExclusiveDone(r, s0, h, hw);
    }

    // -------------------------------------------------------------------------
    // Building the GUI

    /** toplevel: every widget takes its value from the hardware (signals are disabled throughout). */
    method Toplevel()
      requires disableSignals && ctrlCnt == ctrl.Length && Fits(ctrl[..])
      modifies this`snap
      ensures Valid() && snap == Readback(ctrl[..], codec)
    {
      snap := Readback(ctrl[..], codec);
    }
  }

  /**
   * instantiate: open the mixer (the App is released and none returned when
   * that fails), then build the widgets with signals disabled so that setting
   * their initial values writes nothing back.  The requires says the card is
   * laid out as an 18i6, which the program takes for granted.
   */
  method Instantiate(card: Card, codec: Codec) returns (ui: App?)
    requires OpenSucceeds(card) ==> Fits(Active(card.elems))
    ensures ui == null <==> !OpenSucceeds(card)
    ensures ui != null ==> fresh(ui) && fresh(ui.ctrl) && ui.Valid() && ui.mixerOpen && !ui.disableSignals && ui.codec == codec
    ensures ui != null ==> ui.ctrl[..] == Active(card.elems) && ui.snap == Readback(ui.ctrl[..], codec)
  {
    ui := new App(codec);
    var err := ui.OpenMixer(card);
    if err != 0 {
      return null;
    }
    ui.disableSignals := true;
    ui.Toplevel();
    ui.disableSignals := false;
  }
}
