/**
 * The abstract control store: one value per active mixer element, with the
 * per-channel playback switch and centibel gain and the channel-0 enumerated
 * item that the ALSA simple-mixer calls of src/scarlett_mixer.c:336-402 read
 * and write.  Element handle and hardware state are kept in one value.
 */
module Controls {
  import opened Wrappers
  import opened Topology

  /** One channel of an element: which directions it exists in, its switch and its gain. */
  datatype Channel = Channel(playback: bool, capture: bool, switchValue: int, centibels: int)

  /**
   * One mixer element.  `items` is the number of enumerated items, `item`
   * the selected one (channel 0); channels beyond the sequence do not exist.
   */
  datatype Control = Control(
    name: string,
    active: bool,
    hasPlaybackSwitch: bool,
    isEnumerated: bool,
    items: nat,
    item: nat,
    channels: seq<Channel>)

  /** set_mute and set_dB visit channel ids 0, 1 and 2. */
  const Channels: nat := 3

  predicate HasPlayback(c: Control, chn: nat) {
    chn < |c.channels| && c.channels[chn].playback
  }

  predicate HasCapture(c: Control, chn: nat) {
    chn < |c.channels| && c.channels[chn].capture
  }

  /** Two values of one element that differ at most in switch, gain and item values. */
  predicate SameCaps(a: Control, b: Control) {
    a.name == b.name && a.active == b.active && a.hasPlaybackSwitch == b.hasPlaybackSwitch &&
    a.isEnumerated == b.isEnumerated && a.items == b.items && |a.channels| == |b.channels| &&
    forall k :: 0 <= k < |a.channels| ==>
      a.channels[k].playback == b.channels[k].playback && a.channels[k].capture == b.channels[k].capture
  }

  // ---------------------------------------------------------------------------
  // Single hardware writes (one ALSA setter call on one channel)

  /** snd_mixer_selem_set_playback_switch: fails, changing nothing, on a channel without playback. */
  function WriteSwitch(c: Control, chn: nat, v: int): (r: Control)
    ensures SameCaps(r, c)
  {
    if HasPlayback(c, chn) then c.(channels := c.channels[chn := c.channels[chn].(switchValue := v)]) else c
  }

  /** snd_mixer_selem_set_playback_dB: fails, changing nothing, on a channel without playback. */
  function WriteCentibels(c: Control, chn: nat, cb: int): (r: Control)
    ensures SameCaps(r, c)
  {
    if HasPlayback(c, chn) then c.(channels := c.channels[chn := c.channels[chn].(centibels := cb)]) else c
  }

  // ---------------------------------------------------------------------------
  // What set_mute, set_dB and set_enum leave behind

  /** The switch value set_mute writes: the playback switch is on exactly when not muted. */
  function SwitchFor(muted: bool): (v: int)
    ensures v == 0 <==> muted
  {
    if muted then 0 else 1
  }

  /** The element after set_mute(c, muted): every playback channel among 0..2 gets SwitchFor(muted). */
  function WithMute(c: Control, muted: bool): (r: Control)
    ensures SameCaps(r, c)
  {
    c.(channels := seq(|c.channels|, k requires 0 <= k < |c.channels| =>
      if k < Channels && c.channels[k].playback then c.channels[k].(switchValue := SwitchFor(muted))
      else c.channels[k]))
  }

  /** The element after set_dB(c, db): every playback channel among 0..2 holds 100 * db centibels. */
  function WithDb(c: Control, db: int): (r: Control)
    ensures SameCaps(r, c)
  {
    c.(channels := seq(|c.channels|, k requires 0 <= k < |c.channels| =>
      if k < Channels && c.channels[k].playback then c.channels[k].(centibels := 100 * db)
      else c.channels[k]))
  }

  /** The element after set_enum(c, v): the item is taken only when it names one of the items. */
  function WithEnum(c: Control, v: int): (r: Control)
    ensures SameCaps(r, c)
  {
    if 0 <= v < c.items then c.(item := v) else c
  }

  // ---------------------------------------------------------------------------
  // Readers

  /** get_mute: muted when channel 0's switch is off; an unreadable channel leaves the 0 the C starts from. */
  function GetMute(c: Control): (m: bool)
    requires c.hasPlaybackSwitch
    ensures !HasPlayback(c, 0) ==> m
    ensures HasPlayback(c, 0) ==> (m <==> c.channels[0].switchValue == SwitchFor(true))
  {
    if HasPlayback(c, 0) then c.channels[0].switchValue == 0 else true
  }

  /** get_dB: channel 0's centibels in decibels; an unreadable channel reads as 0. */
  function GetDb(c: Control): (db: real)
    ensures !HasPlayback(c, 0) ==> db == 0.0
    ensures HasPlayback(c, 0) ==> 100.0 * db == c.channels[0].centibels as real
  {
    if HasPlayback(c, 0) then (c.channels[0].centibels as real) / 100.0 else 0.0
  }

  /** get_enum: the selected item of channel 0. */
  function GetEnum(c: Control): (v: nat)
    requires c.isEnumerated
    ensures v < c.items ==> WithEnum(c, v) == c
  {
    c.item
  }

  // ---------------------------------------------------------------------------
  // Set/get round trips and "nothing else changes"

  /** A mute written to an element with a playback channel 0 reads back; the gain is untouched. */
  lemma MuteRoundTrip(c: Control, muted: bool)
    requires c.hasPlaybackSwitch
    ensures HasPlayback(c, 0) ==> GetMute(WithMute(c, muted)) == muted
    ensures GetDb(WithMute(c, muted)) == GetDb(c)
    ensures WithMute(c, muted).item == c.item
  {
  }

  /** A gain written to an element with a playback channel 0 reads back; the mute is untouched. */
  lemma DbRoundTrip(c: Control, db: int)
    ensures HasPlayback(c, 0) ==> GetDb(WithDb(c, db)) == db as real
    ensures c.hasPlaybackSwitch ==> GetMute(WithDb(c, db)) == GetMute(c)
    ensures WithDb(c, db).item == c.item
  {
  }

  /** An in-range item written reads back; an out-of-range one leaves the element as it was. */
  lemma EnumRoundTrip(c: Control, v: int)
    requires c.isEnumerated
    ensures 0 <= v < c.items ==> GetEnum(WithEnum(c, v)) == v
    ensures !(0 <= v < c.items) ==> WithEnum(c, v) == c
  {
  }

  /** Exactly the switch values of the playback channels among 0..2 change under set_mute. */
  lemma WithMuteTouches(c: Control, muted: bool, k: nat)
    requires k < |c.channels|
    ensures WithMute(c, muted).channels[k].centibels == c.channels[k].centibels
    ensures WithMute(c, muted).channels[k].switchValue ==
            if HasPlayback(c, k) && k < Channels then SwitchFor(muted) else c.channels[k].switchValue
  {
  }

  /** Exactly the gains of the playback channels among 0..2 change under set_dB. */
  lemma WithDbTouches(c: Control, db: int, k: nat)
    requires k < |c.channels|
    ensures WithDb(c, db).channels[k].switchValue == c.channels[k].switchValue
    ensures WithDb(c, db).channels[k].centibels ==
            if HasPlayback(c, k) && k < Channels then 100 * db else c.channels[k].centibels
  {
  }

  /** Of two set_mute calls in a row only the second one is visible. */
  lemma MuteLastWins(c: Control, a: bool, b: bool)
    ensures WithMute(WithMute(c, a), b) == WithMute(c, b)
  {
    var x, y := WithMute(WithMute(c, a), b), WithMute(c, b);
    assert x.channels == y.channels;
  }

  /** Of two set_dB calls in a row only the second one is visible. */
  lemma DbLastWins(c: Control, a: int, b: int)
    ensures WithDb(WithDb(c, a), b) == WithDb(c, b)
  {
    var x, y := WithDb(WithDb(c, a), b), WithDb(c, b);
    assert x.channels == y.channels;
  }

  /** Of two set_enum calls in a row the second one wins when it is in range. */
  lemma EnumLastWins(c: Control, a: int, b: int)
    requires 0 <= b < c.items
    ensures WithEnum(WithEnum(c, a), b) == WithEnum(c, b)
  {
  }

  // ---------------------------------------------------------------------------
  // Registry construction (open_mixer): the active elements in enumeration order

  /** The elements snd_mixer enumerates that are active, in order. */
  function Active(elems: seq<Control>): (r: seq<Control>)
    ensures |r| <= |elems|
    ensures forall k :: 0 <= k < |r| ==> r[k].active
    ensures |r| == |elems| ==> r == elems
  {
    if elems == [] then []
    else (if elems[0].active then [elems[0]] else []) + Active(elems[1..])
  }

  /** Filtering a concatenation filters each part. */
  lemma {:induction false} ActiveConcat(a: seq<Control>, b: seq<Control>)
    ensures Active(a + b) == Active(a) + Active(b)
  {
    if a == [] {
      assert a + b == b;
    } else {
      assert (a + b)[1..] == a[1..] + b;
      ActiveConcat(a[1..], b);
    }
  }

  /** Filtering a prefix one element longer adds that element exactly when it is active. */
  lemma {:induction false} ActiveSnoc(elems: seq<Control>, j: nat)
    requires j < |elems|
    ensures Active(elems[..j + 1]) == Active(elems[..j]) + (if elems[j].active then [elems[j]] else [])
    ensures Active(elems) == Active(elems[..j + 1]) + Active(elems[j + 1..])
  {
    var x := elems[j];
    assert elems[..j + 1] == elems[..j] + [x];
    ActiveConcat(elems[..j], [x]);
    assert [x][1..] == [];
    assert Active([x]) == (if x.active then [x] else []) + Active([]);
    assert elems == elems[..j + 1] + elems[j + 1..];
    ActiveConcat(elems[..j + 1], elems[j + 1..]);
  }

  /** An element is kept exactly when it is active: nothing active is dropped, nothing inactive kept. */
  lemma {:induction false} ActiveMembers(elems: seq<Control>, x: Control)
    ensures x in Active(elems) <==> x in elems && x.active
  {
    if elems != [] {
      ActiveMembers(elems[1..], x);
      assert elems == [elems[0]] + elems[1..];
    }
  }

  /** The registry is empty exactly when no element is active. */
  lemma {:induction false} ActiveEmpty(elems: seq<Control>)
    ensures Active(elems) == [] <==> forall k :: 0 <= k < |elems| ==> !elems[k].active
  {
    if elems != [] {
      ActiveEmpty(elems[1..]);
      assert forall k :: 1 <= k < |elems| ==> elems[k] == elems[1..][k - 1];
    }
  }

  // ---------------------------------------------------------------------------
  // The 18i6 layout the fixed numbering assumes

  /** What each family's control must offer: the C asserts these before use. */
  predicate Capable(c: Control, x: Option<Coord>) {
    match x
    case None => true
    case Some(Master) => c.hasPlaybackSwitch
    case Some(Output(_)) => c.hasPlaybackSwitch
    case Some(HiZ(_)) => c.isEnumerated
    case Some(Capture(_)) => c.isEnumerated && c.items > 0
    case Some(MatrixInput(_)) => c.isEnumerated && c.items > 0
    case Some(OutputSource(_)) => c.isEnumerated && c.items > 0
    case Some(MatrixCell(_, _)) => true
  }

  /** A registry laid out as the 18i6: position 157 exists and every position has its family's capabilities. */
  predicate Fits(hw: seq<Control>) {
    |hw| > MaxIndex && forall i {:trigger CoordOf(i)} :: 0 <= i < |hw| ==> Capable(hw[i], CoordOf(i))
  }

  /** In a registry laid out as the 18i6, every in-range lookup lands on a control of its family. */
  lemma CapableAt(hw: seq<Control>, x: Coord)
    requires Fits(hw) && InRange(x)
    ensures Lookup(x).Some? && Lookup(x).value < |hw|
    ensures Capable(hw[Lookup(x).value], Some(x))
  {
    CoordOfLookup(x);
    LookupBound(x);
  }

  /** Writing values, never capabilities, keeps the layout. */
  lemma FitsUpdate(hw: seq<Control>, i: nat, c: Control)
    requires Fits(hw) && i < |hw| && SameCaps(c, hw[i])
    ensures Fits(hw[i := c])
  {
    var hw' := hw[i := c];
    forall j | 0 <= j < |hw'| ensures Capable(hw'[j], CoordOf(j)) {
      if j == i {
        assert Capable(hw[i], CoordOf(i));
      }
    }
  }

  // ---------------------------------------------------------------------------
  // Knob codec

  /**
   * db_to_knob and the unclamped, rounded part of knob_to_db.  Both are
   * floating-point formulas with square roots; the model takes them as given.
   */
  datatype Codec = Codec(dbToKnob: real -> real, roundedDb: real -> int)

  /**
   * knob_to_db: the rounded decibel value, clamped to +6.  The C tests the
   * unrounded value against 6 before rounding; since rounding a value at
   * most 6 gives at most 6, clamping after rounding gives the same result.
   */
  function KnobToDb(codec: Codec, v: real): (db: int)
    ensures db <= 6
    ensures db == codec.roundedDb(v) || (db == 6 && codec.roundedDb(v) > 6)
  {
    if codec.roundedDb(v) > 6 then 6 else codec.roundedDb(v)
  }
}
