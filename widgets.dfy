/**
 * The widget snapshot: the values the GUI shows for every control
 * (selector items, knob positions, mute states, Hi-Z buttons), how a full
 * re-read of the hardware rewrites it (src/scarlett_mixer.c:1116-1156), the
 * click state a matrix knob takes from its decibel value (512-523, 821-826)
 * and the middle-click exclusive assignment of a matrix row (714-733).
 */
module Widgets {
  import opened Wrappers
  import opened Topology
  import opened Controls

  /**
   * srcSel, mtxSel and outSel hold selector items; mtxGain, outGain and
   * mstGain knob positions; outMute and mstMute the dial state "1"
   * (muted); hiz the Hi-Z buttons; clickState the matrix knobs' marker.
   */
  datatype Snapshot = Snapshot(
    srcSel: seq<nat>,
    mtxSel: seq<nat>,
    mtxGain: seq<real>,
    clickState: seq<int>,
    outGain: seq<real>,
    outMute: seq<bool>,
    mstGain: real,
    mstMute: bool,
    hiz: seq<bool>,
    outSel: seq<nat>)
  {
    predicate WellFormed() {
      |srcSel| == SIN && |mtxSel| == SMI && |mtxGain| == SMI * SMO && |clickState| == SMI * SMO &&
      |outGain| == SMST && |outMute| == SMST && |hiz| == NHIZ && |outSel| == SOUT
    }
  }

  /** The marker cb_mtx_gain gives a matrix knob: 1 at the -128 dB floor, 2 at unity, else 0. */
  function ClickOf(db: int): (s: int)
    ensures s == 1 <==> db == -128
    ensures s == 2 <==> db == 0
    ensures s == 0 <==> db != -128 && db != 0
  {
    if db == -128 then 1 else if db == 0 then 2 else 0
  }

  /** The marker toplevel gives a freshly built matrix knob: 1 at knob position 0, 2 at 0 dB, else 0. */
  function InitialClick(codec: Codec, knob: real): (s: int)
    ensures s == 1 <==> knob == 0.0
    ensures s == 2 <==> knob != 0.0 && KnobToDb(codec, knob) == 0
    ensures 0 <= s <= 2
  {
    if knob == 0.0 then 1 else if KnobToDb(codec, knob) == 0 then 2 else 0
  }

  /** Hi-Z button i is shown active exactly when its impedance switch reads item 1. */
  function HizActive(hw: seq<Control>, i: nat): bool
    requires Fits(hw) && i < NHIZ
  {
    GetEnumAt(hw, HiZ(i)) == 1
  }

  /** The knob position that shows a control's gain: db_to_knob of get_dB. */
  function KnobOf(codec: Codec, c: Control): (k: real)
    ensures !HasPlayback(c, 0) ==> k == codec.dbToKnob(0.0)
  {
    codec.dbToKnob(GetDb(c))
  }

  /** A knob read back after set_dB(d) on a control with a playback channel 0 shows d. */
  lemma KnobAfterSetDb(codec: Codec, c: Control, db: int)
    ensures HasPlayback(c, 0) ==> KnobOf(codec, WithDb(c, db)) == codec.dbToKnob(db as real)
  {
    DbRoundTrip(c, db);
  }

  /**
   * Every widget value as read from the hardware through the topology
   * lookups; the matrix markers are the ones toplevel sets.
   */
  function Readback(hw: seq<Control>, codec: Codec): (s: Snapshot)
    requires Fits(hw)
    ensures s.WellFormed()
  {
    Snapshot(
      seq(SIN, r requires 0 <= r < SIN => GetEnumAt(hw, Capture(r))),
      seq(SMI, r requires 0 <= r < SMI => GetEnumAt(hw, MatrixInput(r))),
      MatrixKnobs(hw, codec),
      seq(SMI * SMO, n requires 0 <= n < SMI * SMO => InitialClick(codec, MatrixKnobs(hw, codec)[n])),
      seq(SMST, o requires 0 <= o < SMST => KnobOf(codec, hw[OutGain(o).value])),
      seq(SMST, o requires 0 <= o < SMST => GetMuteAt(hw, Output(o))),
      KnobOf(codec, hw[MstGain()]),
      GetMuteAt(hw, Master),
      seq(NHIZ, i requires 0 <= i < NHIZ => HizActive(hw, i)),
      seq(SOUT, o requires 0 <= o < SOUT => GetEnumAt(hw, OutputSource(o))))
  }

  /** The matrix knob positions, row by row, as read from the matrix cells. */
  function MatrixKnobs(hw: seq<Control>, codec: Codec): (g: seq<real>)
    requires Fits(hw)
    ensures |g| == SMI * SMO
  {
    seq(SMI * SMO, n requires 0 <= n < SMI * SMO => KnobOf(codec, hw[MatrixCtrlN(n).value]))
  }

  /** get_enum on the control a selector-family coordinate names. */
  function GetEnumAt(hw: seq<Control>, x: Coord): nat
    requires Fits(hw) && InRange(x)
    requires x.Capture? || x.MatrixInput? || x.OutputSource? || x.HiZ?
  {
    CapableAt(hw, x);
    GetEnum(hw[Lookup(x).value])
  }

  /** get_mute on the control a gain-with-mute coordinate names. */
  function GetMuteAt(hw: seq<Control>, x: Coord): bool
    requires Fits(hw) && InRange(x) && (x.Master? || x.Output?)
  {
    CapableAt(hw, x);
    GetMute(hw[Lookup(x).value])
  }

  /**
   * The marker a matrix knob has after being set from `was` to `now`: the
   * callback runs (and recomputes the marker) only when the value changes.
   */
  function ClickAfter(codec: Codec, was: real, wasClick: int, now: real): (s: int)
    ensures now != was ==> s == ClickOf(KnobToDb(codec, now))
    ensures now == was ==> s == wasClick
  {
    if now != was then ClickOf(KnobToDb(codec, now)) else wasClick
  }

  /** The markers of all matrix knobs after knob k went from was[k] to now[k]. */
  function ClicksAfter(codec: Codec, was: seq<real>, wasClick: seq<int>, now: seq<real>): (cs: seq<int>)
    requires |was| == |wasClick| == |now|
    ensures |cs| == |now|
  {
    seq(|now|, k requires 0 <= k < |now| => ClickAfter(codec, was[k], wasClick[k], now[k]))
  }

  /** The snapshot after a reconciliation pass over hardware hw. */
  function Reconciled(s: Snapshot, hw: seq<Control>, codec: Codec): (t: Snapshot)
    requires s.WellFormed() && Fits(hw)
    ensures t.WellFormed()
    ensures t.(clickState := []) == Readback(hw, codec).(clickState := [])
    ensures forall n :: 0 <= n < SMI * SMO ==>
      t.clickState[n] == ClickAfter(codec, s.mtxGain[n], s.clickState[n], t.mtxGain[n])
  {
    var m := Readback(hw, codec);
    m.(clickState := ClicksAfter(codec, s.mtxGain, s.clickState, m.mtxGain))
  }

  /** A second reconciliation pass over unchanged hardware changes nothing. */
  lemma ReconcileIdempotent(s: Snapshot, hw: seq<Control>, codec: Codec)
    requires s.WellFormed() && Fits(hw)
    ensures Reconciled(Reconciled(s, hw, codec), hw, codec) == Reconciled(s, hw, codec)
  {
    var t := Reconciled(s, hw, codec);
    var u := Reconciled(t, hw, codec);
    assert u.clickState == t.clickState;
    assert u.(clickState := []) == t.(clickState := []);
  }

  /** A reconciliation pass right after the widgets were built from unchanged hardware changes nothing. */
  lemma ReconcileAfterBuild(hw: seq<Control>, codec: Codec)
    requires Fits(hw)
    ensures Reconciled(Readback(hw, codec), hw, codec) == Readback(hw, codec)
  {
    var m := Readback(hw, codec);
    var t := Reconciled(m, hw, codec);
    assert t.clickState == m.clickState;
    assert t.(clickState := []) == m.(clickState := []);
  }

  /** What one reconciliation pass shows does not depend on what was shown before, apart from the markers. */
  lemma ReconcileForgetsSnapshot(s: Snapshot, s': Snapshot, hw: seq<Control>, codec: Codec)
    requires s.WellFormed() && s'.WellFormed() && Fits(hw)
    ensures Reconciled(s, hw, codec).(clickState := []) == Reconciled(s', hw, codec).(clickState := [])
    ensures CoordOf(13) == Some(Capture(0)) && Reconciled(s, hw, codec).srcSel[0] == GetEnum(hw[13])
  {
    assert CoordOf(13) == Some(Capture(0));
  }

  /** The marker of every knob a reconciliation changed agrees with its new decibel value. */
  lemma ReconcileClickConsistent(s: Snapshot, hw: seq<Control>, codec: Codec, n: nat)
    requires s.WellFormed() && Fits(hw) && n < SMI * SMO
    requires s.mtxGain[n] != Reconciled(s, hw, codec).mtxGain[n]
    ensures Reconciled(s, hw, codec).clickState[n] == ClickOf(KnobToDb(codec, Reconciled(s, hw, codec).mtxGain[n]))
  {
  }

  /** Writing t[r] over a sequence whose first r elements are t's extends that prefix by one. */
  lemma PrefixStep<T>(t: seq<T>, s: seq<T>, r: nat)
    requires |t| == |s| && r < |t|
    ensures (t[..r] + s[r..])[r := t[r]] == t[..r + 1] + s[r + 1..]
  {
    var u := (t[..r] + s[r..])[r := t[r]];
    assert forall k :: 0 <= k < |t| ==> u[k] == (t[..r + 1] + s[r + 1..])[k];
  }

  /** A prefix of t followed by the rest of s is t when s agrees with t after the prefix. */
  lemma PrefixAgree<T>(t: seq<T>, s: seq<T>, p: nat)
    requires |t| == |s| && p <= |t|
    requires forall k :: p <= k < |t| ==> t[k] == s[k]
    ensures t[..p] + s[p..] == t
  {
    assert forall k :: 0 <= k < |t| ==> (t[..p] + s[p..])[k] == t[k];
  }

  /** A prefix of t followed by the rest of s is s when t agrees with s on that prefix. */
  lemma PrefixKeep<T>(t: seq<T>, s: seq<T>, p: nat)
    requires |t| == |s| && p <= |t|
    requires forall k :: 0 <= k < p ==> t[k] == s[k]
    ensures t[..p] + s[p..] == s
  {
    assert forall k :: 0 <= k < |s| ==> (t[..p] + s[p..])[k] == s[k];
  }

  /** A prefix of full length is the whole sequence. */
  lemma PrefixWhole<T>(t: seq<T>, s: seq<T>)
    requires |t| == |s|
    ensures t[..|t|] + s[|s|..] == t && t[..0] + s[0..] == s
  {
    assert t[..|t|] == t && s[|s|..] == [];
    assert t[..0] == [] && s[0..] == s;
  }

  // ---------------------------------------------------------------------------
  // Middle-click exclusive assignment of one matrix row

  /**
   * The knob row after a middle click on knob n: every other knob of n's
   * row goes to 0, knob n goes to `unity` if it was at 0 and to 0 otherwise;
   * the other rows stay.
   */
  function ExclusiveRow(g: seq<real>, n: nat, unity: real): (h: seq<real>)
    requires |g| == SMI * SMO && n < SMI * SMO
    ensures |h| == |g|
    ensures forall k :: 0 <= k < |g| && k / SMO != n / SMO ==> h[k] == g[k]
    ensures forall k :: 0 <= k < |g| && k / SMO == n / SMO && k != n ==> h[k] == 0.0
    ensures h[n] == (if g[n] == 0.0 then unity else 0.0)
  {
    seq(SMI * SMO, k requires 0 <= k < SMI * SMO =>
      if k / SMO != n / SMO then g[k]
      else if k == n then (if g[n] == 0.0 then unity else 0.0)
      else 0.0)
  }

  /** Knob i of n's row after a middle click on n, located without division. */
  lemma ExclusiveRowAt(g: seq<real>, n: nat, unity: real, i: nat)
    requires |g| == SMI * SMO && n < SMI * SMO && i < SMO
    ensures n / SMO * SMO + i < SMI * SMO
    ensures ExclusiveRow(g, n, unity)[n / SMO * SMO + i] ==
      if i == n % SMO then (if g[n] == 0.0 then unity else 0.0) else 0.0
  {
    var k := n / SMO * SMO + i;
    assert k / SMO == n / SMO;
    assert k == n <==> i == n % SMO;
  }

  /** After a middle click at most one knob of the row is open. */
  lemma ExclusiveAtMostOne(g: seq<real>, n: nat, unity: real, k: nat, j: nat)
    requires |g| == SMI * SMO && n < SMI * SMO && k < SMI * SMO && j < SMI * SMO
    requires k / SMO == n / SMO && j / SMO == n / SMO && k != j
    ensures ExclusiveRow(g, n, unity)[k] == 0.0 || ExclusiveRow(g, n, unity)[j] == 0.0
  {
  }

  /** Repeated middle clicks on one knob alternate it between open and closed; the rest of the row stays closed. */
  lemma ExclusiveToggle(g: seq<real>, n: nat, unity: real)
    requires |g| == SMI * SMO && n < SMI * SMO && unity != 0.0
    ensures ExclusiveRow(ExclusiveRow(g, n, unity), n, unity)[n] != ExclusiveRow(g, n, unity)[n]
    ensures ExclusiveRow(ExclusiveRow(ExclusiveRow(g, n, unity), n, unity), n, unity) == ExclusiveRow(g, n, unity)
  {
    var e1 := ExclusiveRow(g, n, unity);
    var e2 := ExclusiveRow(e1, n, unity);
    var e3 := ExclusiveRow(e2, n, unity);
    assert e3[n] == e1[n] by {
      if g[n] == 0.0 { assert e1[n] == unity && e2[n] == 0.0; } else { assert e1[n] == 0.0 && e2[n] == unity; }
    }
    assert forall k :: 0 <= k < |g| ==> e3[k] == e1[k];
  }
}
