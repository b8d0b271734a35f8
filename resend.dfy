/**
 * The force-resend button (cb_btn_reset, src/scarlett_mixer.c:427-480):
 * edge-triggered hardware reacts only to changes, so every selector and
 * every matrix and output gain is first written a different value and then
 * its true one.  This module says what that pair of writes leaves behind
 * for each coordinate, and in which order the button visits them.
 */
module Resend {
  import opened Wrappers
  import opened Topology
  import opened Controls
  import opened Widgets

  /** The decibel value written first: +127 when the true value is the -128 floor, else -128. */
  function FlipDb(db: int): (f: int)
    ensures f != db
    ensures f == 127 || f == -128
  {
    if db == -128 then 127 else -128
  }

  /** A selector resent with item v: first (v + 1) mod items, then v. */
  function ResendEnum(c: Control, v: nat): (r: Control)
    requires c.items > 0
    ensures SameCaps(r, c)
  {
    WithEnum(WithEnum(c, (v + 1) % c.items), v)
  }

  /** A matrix gain resent with db: first FlipDb(db), then db. */
  function ResendGain(c: Control, db: int): (r: Control)
    ensures SameCaps(r, c)
  {
    WithDb(WithDb(c, FlipDb(db)), db)
  }

  /** An output gain resent: mute !m then m, then the gain pair. */
  function ResendOutput(c: Control, m: bool, db: int): (r: Control)
    ensures SameCaps(r, c)
  {
    ResendGain(WithMute(WithMute(c, !m), m), db)
  }

  /**
   * What the button leaves in the control at a position owned by x, given
   * the snapshot s: master gain, Hi-Z switches and unowned positions are
   * never written.
   */
  function Resent(c: Control, x: Option<Coord>, s: Snapshot, codec: Codec): (r: Control)
    requires s.WellFormed() && Capable(c, x) && (x.Some? ==> InRange(x.value))
    ensures SameCaps(r, c)
  {
    match x
    case Some(Capture(r)) => ResendEnum(c, s.srcSel[r])
    case Some(MatrixInput(r)) => ResendEnum(c, s.mtxSel[r])
    case Some(OutputSource(o)) => ResendEnum(c, s.outSel[o])
    case Some(MatrixCell(col, r)) =>
      assert r * SMO + col < SMI * SMO by { assert r * SMO <= (SMI - 1) * SMO; }
      ResendGain(c, KnobToDb(codec, s.mtxGain[r * SMO + col]))
    case Some(Output(n)) => ResendOutput(c, s.outMute[n], KnobToDb(codec, s.outGain[n]))
    case _ => c
  }

  /** A resent selector ends as if only its true item had been written; the item count may be 1. */
  lemma ResendEnumRestores(c: Control, v: nat)
    requires c.isEnumerated && c.items > 0 && v < c.items
    ensures ResendEnum(c, v) == WithEnum(c, v)
    ensures GetEnum(ResendEnum(c, v)) == v
    ensures 0 <= (v + 1) % c.items < c.items
  {
    EnumLastWins(c, (v + 1) % c.items, v);
  }

  /** With two or more items the first write really moves the selector away from v. */
  lemma ResendEnumMoves(c: Control, v: nat)
    requires c.isEnumerated && c.items >= 2 && v < c.items
    ensures GetEnum(WithEnum(c, (v + 1) % c.items)) != v
  {
    if v + 1 < c.items {
      assert (v + 1) % c.items == v + 1;
    } else {
      assert (v + 1) % c.items == 0;
    }
  }

  /** A resent gain ends as if only its true value had been written. */
  lemma ResendGainRestores(c: Control, db: int)
    ensures ResendGain(c, db) == WithDb(c, db)
    ensures HasPlayback(c, 0) ==> GetDb(ResendGain(c, db)) == db as real
  {
    DbLastWins(c, FlipDb(db), db);
  }

  /** The first gain write really changes what channel 0 reads. */
  lemma ResendGainMoves(c: Control, db: int)
    requires HasPlayback(c, 0)
    ensures GetDb(WithDb(c, FlipDb(db))) != db as real
  {
  }

  /** A resent output ends as if its true mute and then its true gain had been written once each. */
  lemma ResendOutputRestores(c: Control, m: bool, db: int)
    requires c.hasPlaybackSwitch
    ensures ResendOutput(c, m, db) == WithDb(WithMute(c, m), db)
    ensures HasPlayback(c, 0) ==> GetMute(ResendOutput(c, m, db)) == m
    ensures HasPlayback(c, 0) ==> GetMute(WithMute(c, !m)) != m
  {
    MuteLastWins(c, !m, m);
    ResendGainRestores(WithMute(c, m), db);
  }

  /**
   * After the button every visited control reads back what its widget shows
   * (a selector item within range, a gain on a control with channel 0, an
   * output's mute), and master gain, Hi-Z and unowned positions are unchanged.
   */
  lemma ResentAgrees(c: Control, x: Option<Coord>, s: Snapshot, codec: Codec)
    requires s.WellFormed() && Capable(c, x) && (x.Some? ==> InRange(x.value))
    ensures x.None? || x.value.Master? || x.value.HiZ? ==> Resent(c, x, s, codec) == c
    ensures x.Some? && x.value.Capture? && s.srcSel[x.value.row] < c.items ==>
      GetEnum(Resent(c, x, s, codec)) == s.srcSel[x.value.row]
    ensures x.Some? && x.value.MatrixInput? && s.mtxSel[x.value.row] < c.items ==>
      GetEnum(Resent(c, x, s, codec)) == s.mtxSel[x.value.row]
    ensures x.Some? && x.value.OutputSource? && s.outSel[x.value.ch] < c.items ==>
      GetEnum(Resent(c, x, s, codec)) == s.outSel[x.value.ch]
    ensures x.Some? && x.value.MatrixCell? && HasPlayback(c, 0) ==>
      GetDb(Resent(c, x, s, codec)) == KnobToDb(codec, s.mtxGain[x.value.row * SMO + x.value.col]) as real
    ensures x.Some? && x.value.Output? && HasPlayback(c, 0) ==>
      GetMute(Resent(c, x, s, codec)) == s.outMute[x.value.ch] &&
      GetDb(Resent(c, x, s, codec)) == KnobToDb(codec, s.outGain[x.value.ch]) as real
  {
    match x
    case None =>
    case Some(y) =>
      match y
      case Capture(r) => if s.srcSel[r] < c.items { ResendEnumRestores(c, s.srcSel[r]); }
      case MatrixInput(r) => if s.mtxSel[r] < c.items { ResendEnumRestores(c, s.mtxSel[r]); }
      case OutputSource(o) => if s.outSel[o] < c.items { ResendEnumRestores(c, s.outSel[o]); }
      case MatrixCell(col, r) =>
        assert r * SMO + col < SMI * SMO by { assert r * SMO <= (SMI - 1) * SMO; }
        ResendGainRestores(c, KnobToDb(codec, s.mtxGain[r * SMO + col]));
      case Output(n) =>
        var db := KnobToDb(codec, s.outGain[n]);
        ResendOutputRestores(c, s.outMute[n], db);
        DbRoundTrip(WithMute(c, s.outMute[n]), db);
      case _ =>
  }

  // ---------------------------------------------------------------------------
  // Visiting order of the button

  /** Number of controls the button writes: 18 + 18 + 6 selectors, 108 + 3 gains. */
  const Visited: nat := 153

  /**
   * The position of a coordinate in the button's visiting order: capture
   * selectors, matrix selectors, output assigns, matrix cells row by row,
   * output gains.  Master and Hi-Z are never visited and rank Visited.
   */
  function Rank(x: Coord): (k: nat)
    ensures k <= Visited
  {
    match x
    case Capture(r) => if r < SIN then r else Visited
    case MatrixInput(r) => if r < SMI then SIN + r else Visited
    case OutputSource(o) => if o < SOUT then SIN + SMI + o else Visited
    case MatrixCell(c, r) =>
      if c < SMO && r < SMI then
        assert r * SMO <= (SMI - 1) * SMO;
        SIN + SMI + SOUT + r * SMO + c
      else Visited
    case Output(n) => if n < SMST then SIN + SMI + SOUT + SMI * SMO + n else Visited
    case _ => Visited
  }

  /** The rank of registry position i. */
  function RankAt(i: nat): nat {
    match CoordOf(i)
    case None => Visited
    case Some(x) => Rank(x)
  }

  /** Distinct visited coordinates have distinct ranks. */
  lemma RankInjective(x: Coord, y: Coord)
    requires Rank(x) == Rank(y) < Visited
    ensures x == y
  {
  }

  /** The button writes each visited control exactly once: only position i has rank RankAt(i). */
  lemma RankAtUnique(i: nat)
    requires RankAt(i) < Visited
    ensures forall j: nat :: RankAt(j) == RankAt(i) ==> j == i
  {
    forall j: nat | RankAt(j) == RankAt(i) ensures j == i {
      RankInjective(CoordOf(i).value, CoordOf(j).value);
      LookupCoordOf(i);
      LookupCoordOf(j);
    }
  }

  /** The position a lookup lands on carries that coordinate's rank. */
  lemma RankAtLookup(x: Coord)
    requires InRange(x)
    ensures Lookup(x).Some? && RankAt(Lookup(x).value) == Rank(x)
  {
    CoordOfLookup(x);
  }

  /** Exactly master gain, Hi-Z switches and unowned positions are left out of the visit. */
  lemma RankAtVisited(i: nat)
    ensures RankAt(i) < Visited <==>
      CoordOf(i).Some? && !CoordOf(i).value.Master? && !CoordOf(i).value.HiZ?
  {
    match CoordOf(i)
    case None =>
    case Some(x) =>
      if x.MatrixCell? {
        assert x.row * SMO <= (SMI - 1) * SMO;
      }
  }

  // ---------------------------------------------------------------------------
  // Progress of the button over the registry

  /** What the button has left at position i once every rank below `done` is written. */
  function ResentSoFar(c: Control, i: nat, done: nat, s: Snapshot, codec: Codec): Control
    requires s.WellFormed() && Capable(c, CoordOf(i))
  {
    if RankAt(i) < done then Resent(c, CoordOf(i), s, codec) else c
  }

  /** The registry cur is hw with exactly the controls of rank below `done` resent. */
  ghost predicate ResentUpTo(cur: seq<Control>, hw: seq<Control>, done: nat, s: Snapshot, codec: Codec)
    requires Fits(hw) && s.WellFormed()
  {
    |cur| == |hw| &&
    forall i :: 0 <= i < |hw| ==> cur[i] == ResentSoFar(hw[i], i, done, s, codec)
  }

  /** Two positions of the registry never share a visited rank. */
  lemma RankAtDistinct(i: nat, j: nat)
    requires i != j && RankAt(i) < Visited
    ensures RankAt(j) != RankAt(i)
  {
    RankAtUnique(i);
  }

  /** Resending the control of rank `done` extends the resent prefix by one. */
  lemma ResentStep(cur: seq<Control>, hw: seq<Control>, done: nat, s: Snapshot, codec: Codec, x: Coord)
    requires Fits(hw) && s.WellFormed() && ResentUpTo(cur, hw, done, s, codec)
    requires InRange(x) && Rank(x) == done
    ensures Lookup(x).Some? && Lookup(x).value < |hw| && cur[Lookup(x).value] == hw[Lookup(x).value]
    ensures Capable(hw[Lookup(x).value], Some(x))
    ensures ResentUpTo(cur[Lookup(x).value := Resent(hw[Lookup(x).value], Some(x), s, codec)], hw, done + 1, s, codec)
  {
    CapableAt(hw, x);
    RankAtLookup(x);
    CoordOfLookup(x);
    var i := Lookup(x).value;
    assert RankAt(i) == done;
    assert cur[i] == ResentSoFar(hw[i], i, done, s, codec);
    var next := cur[i := Resent(hw[i], Some(x), s, codec)];
    forall j | 0 <= j < |hw| ensures next[j] == ResentSoFar(hw[j], j, done + 1, s, codec) {
      if j != i {
        if done < Visited {
          RankAtDistinct(i, j);
        }
        assert next[j] == cur[j] == ResentSoFar(hw[j], j, done, s, codec);
      }
    }
  }

  /** Once every rank below Visited is done, every control is as Resent says. */
  lemma ResentDone(cur: seq<Control>, hw: seq<Control>, s: Snapshot, codec: Codec)
    requires Fits(hw) && s.WellFormed() && ResentUpTo(cur, hw, Visited, s, codec)
    ensures |cur| == |hw|
    ensures forall i :: 0 <= i < |hw| ==> cur[i] == Resent(hw[i], CoordOf(i), s, codec)
  {
    forall i | 0 <= i < |hw| ensures cur[i] == Resent(hw[i], CoordOf(i), s, codec) {
      assert cur[i] == ResentSoFar(hw[i], i, Visited, s, codec);
      RankAtVisited(i);
    }
  }
}
