/**
 * Fixed control numbering of the Scarlett 18i6 (src/scarlett_mixer.c:100-222).
 *
 * Every lookup maps a logical coordinate to a position in the registry of
 * active controls, or to None where the C code returns NULL.  Arguments of
 * the matrix lookup are (column, row), column first, as in the source.
 */
module Topology {
  import opened Wrappers

  /** Matrix inputs (rows) and matrix outputs (columns). */
  const SMI: nat := 18
  const SMO: nat := 6
  /** Capture selectors and output assigns. */
  const SIN: nat := 18
  const SOUT: nat := 6
  /** Stereo output gains with mute. */
  const SMST: nat := 3
  /** Hi-Z switches. */
  const NHIZ: nat := 2

  /** The highest registry position any lookup can produce. */
  const MaxIndex: nat := 157

  /** matrix_ctrl_cr: gain cell of matrix column c, row r. */
  function MatrixCtrlCr(c: nat, r: nat): (x: Option<nat>)
    ensures x.None? <==> (r >= SMI || c >= SMO)
    ensures x.Some? ==> 33 <= x.value <= MaxIndex
  {
    if r >= SMI || c >= SMO then None else Some(33 + r * 7 + c)
  }

  /** matrix_ctrl_n: the same cell addressed by its row-major widget number. */
  function MatrixCtrlN(n: nat): (x: Option<nat>)
    ensures x.None? <==> n >= SMI * SMO
    ensures x.Some? ==> 33 <= x.value <= MaxIndex
  {
    MatrixCtrlCr(n % SMO, n / SMO)
  }

  /** matrix_sel: input selector of matrix row r. */
  function MatrixSel(r: nat): (x: Option<nat>)
    ensures x.None? <==> r >= SMI
    ensures x.Some? ==> 32 <= x.value < MaxIndex && (x.value - 32) % 7 == 0
  {
    if r >= SMI then None else Some(32 + r * 7)
  }

  /** src_sel: capture source selector r. */
  function SrcSel(r: nat): (x: Option<nat>)
    ensures x.None? <==> r >= SIN
    ensures x.Some? ==> 13 <= x.value <= 30
  {
    if r >= SIN then None else Some(13 + r)
  }

  /** src_sel_default: the default item of capture selector r among m items. */
  function SrcSelDefault(r: nat, m: int): (d: int)
    requires m > 0
    ensures 0 <= d < m
  {
    (r + 7) % m
  }

  /** out_gain: gain/mute control of stereo output c. */
  function OutGain(c: nat): (x: Option<nat>)
    ensures x.None? <==> c >= SMST
    ensures x.Some? ==> x.value <= 7 && x.value % 3 == 1
  {
    if c == 0 then Some(1)
    else if c == 1 then Some(4)
    else if c == 2 then Some(7)
    else None
  }

  /** out_sel: source assignment of output channel c. */
  function OutSel(c: nat): (x: Option<nat>)
    ensures x.None? <==> c >= SOUT
    ensures x.Some? ==> 2 <= x.value <= 9 && x.value % 3 != 1
  {
    if c == 0 then Some(2)
    else if c == 1 then Some(3)
    else if c == 2 then Some(5)
    else if c == 3 then Some(6)
    else if c == 4 then Some(8)
    else if c == 5 then Some(9)
    else None
  }

  /** out_sel_default: the default item of output assign c ("Mix 1" is item 25). */
  function OutSelDefault(c: nat): (d: nat)
    ensures c < SOUT ==> 25 <= d < 25 + SOUT
  {
    25 + c
  }

  /** The default item of matrix input selector r (item 0 is "off"). */
  function MtxSelDefault(r: nat): (d: nat)
    ensures d != 0
    ensures r < SMI ==> d <= SMI
  {
    1 + r
  }

  /** hiz: impedance switch of input c. */
  function Hiz(c: nat): (x: Option<nat>)
    ensures x.None? <==> c >= NHIZ
    ensures x.Some? ==> x.value == 11 + c
  {
    if c == 0 then Some(11)
    else if c == 1 then Some(12)
    else None
  }

  /** mst_gain: the master gain/mute control. */
  function MstGain(): (m: nat)
    ensures CoordOf(m) == Some(Master)
  {
    0
  }

  /** A logical mixer coordinate: one per family of lookups above. */
  datatype Coord =
    | Master
    | Output(ch: nat)
    | OutputSource(ch: nat)
    | HiZ(ch: nat)
    | Capture(row: nat)
    | MatrixInput(row: nat)
    | MatrixCell(col: nat, row: nat)

  /** The coordinates for which the source's lookup returns a control. */
  predicate InRange(x: Coord) {
    match x
    case Master => true
    case Output(ch) => ch < SMST
    case OutputSource(ch) => ch < SOUT
    case HiZ(ch) => ch < NHIZ
    case Capture(r) => r < SIN
    case MatrixInput(r) => r < SMI
    case MatrixCell(c, r) => c < SMO && r < SMI
  }

  /** Dispatch to the source's lookup of each family. */
  function Lookup(x: Coord): Option<nat> {
    match x
    case Master => Some(MstGain())
    case Output(ch) => OutGain(ch)
    case OutputSource(ch) => OutSel(ch)
    case HiZ(ch) => Hiz(ch)
    case Capture(r) => SrcSel(r)
    case MatrixInput(r) => MatrixSel(r)
    case MatrixCell(c, r) => MatrixCtrlCr(c, r)
  }

  /**
   * The inverse of Lookup: which coordinate, if any, owns registry position i.
   * Positions 10, 31 and everything above MaxIndex belong to no coordinate.
   */
  function CoordOf(i: nat): (x: Option<Coord>)
    ensures x.Some? ==> InRange(x.value)
  {
    if i == 0 then Some(Master)
    else if i == 1 || i == 4 || i == 7 then Some(Output((i - 1) / 3))
    else if 2 <= i <= 9 then Some(OutputSource((i - 2) - (i - 2) / 3))
    else if i == 11 || i == 12 then Some(HiZ(i - 11))
    else if 13 <= i <= 30 then Some(Capture(i - 13))
    else if 32 <= i <= MaxIndex then
      var k := (i - 32) % 7;
      var r := (i - 32) / 7;
      if k == 0 then Some(MatrixInput(r)) else Some(MatrixCell(k - 1, r))
    else None
  }

  /** Inside the 18 x 6 grid, matrix_ctrl_cr strides 7 per row and 1 per column from 33. */
  lemma MatrixCtrlCrSpec(c: nat, r: nat)
    ensures MatrixCtrlCr(c, r).Some? ==> MatrixCtrlCr(c, r).value == 33 + 7 * r + c
    ensures MatrixCtrlCr(0, 0) == Some(33) && MatrixCtrlCr(2, 3) == Some(56)
  {
  }

  /** matrix_ctrl_n is the row-major linearisation used by the widgets (n = r * 6 + c). */
  lemma MatrixCtrlNRowMajor(c: nat, r: nat)
    requires c < SMO
    ensures MatrixCtrlN(r * SMO + c) == MatrixCtrlCr(c, r)
  {
    assert (r * SMO + c) / SMO == r;
    assert (r * SMO + c) % SMO == c;
  }

  /** Every lookup that returns a control names the coordinate it was asked for. */
  lemma CoordOfLookup(x: Coord)
    requires InRange(x)
    ensures Lookup(x).Some? && CoordOf(Lookup(x).value) == Some(x)
  {
    match x
    case MatrixInput(r) =>
      assert 32 + r * 7 - 32 == 7 * r;
      assert (7 * r) % 7 == 0 && (7 * r) / 7 == r;
    case MatrixCell(c, r) =>
      assert 33 + r * 7 + c - 32 == 7 * r + (c + 1);
      assert (7 * r + (c + 1)) % 7 == c + 1 && (7 * r + (c + 1)) / 7 == r;
    case _ =>
  }

  /** Every position owned by a coordinate is where that coordinate's lookup lands. */
  lemma LookupCoordOf(i: nat)
    requires CoordOf(i).Some?
    ensures Lookup(CoordOf(i).value) == Some(i)
  {
    if 32 <= i <= MaxIndex {
      var k := (i - 32) % 7;
      var r := (i - 32) / 7;
      assert i == 32 + 7 * r + k;
    }
  }

  /** A lookup returns None exactly for out-of-range coordinates. */
  lemma LookupNone(x: Coord)
    ensures Lookup(x).None? <==> !InRange(x)
  {
  }

  /** No two coordinates share a control: the families are disjoint and each is injective. */
  lemma LookupInjective(x: Coord, y: Coord)
    requires Lookup(x).Some? && Lookup(x) == Lookup(y)
    ensures x == y
  {
    LookupNone(x);
    LookupNone(y);
    CoordOfLookup(x);
    CoordOfLookup(y);
  }

  /** Every lookup stays within 0..157, and 157 (Mix F of row 18) is reached. */
  lemma LookupBound(x: Coord)
    ensures Lookup(x).Some? ==> Lookup(x).value <= MaxIndex
    ensures Lookup(MatrixCell(SMO - 1, SMI - 1)) == Some(MaxIndex)
  {
  }
}
