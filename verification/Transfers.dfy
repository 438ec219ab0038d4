/** What chnl_recv and chnl_send share: wake-ups, the two mapping slots, register writes. */
module Transfers {
  import opened Wrappers
  import opened ScatterGather

  // Message events of riffa_driver.h.
  const TXN_LEN := 1
  const TXN_OFFLAST := 2
  const TXN_DONE := 3
  const SG_BUF_READ := 4

  /** One turn of the message loop: a popped message, an expired timeout or a pending signal. */
  datatype Wake = Message(kind: nat, arg: nat) | TimedOut | Signalled

  /** A wake-up, and how many pages the kernel will pin should it lead to a fill. */
  datatype Input = Input(wake: Wake, grant: int)

  /** The return value: a word count, or -ERESTARTSYS. */
  datatype Result = Words(n: nat) | Restart

  /** The part of a device the transfer code reads. */
  datatype Device = Device(numSg: nat, bufHwAddr: nat, spillAddr: nat)

  /** The three writes that hand the common buffer to the device; `first` is the offset of the length register. */
  function Program(regs: seq<(nat, nat)>, d: Device, first: nat, m: Mapping): seq<(nat, nat)> {
    regs + [(first + 1, d.bufHwAddr % 0x1_0000_0000), (first + 2, d.bufHwAddr / 0x1_0000_0000), (first, 4 * m.NumSg())]
  }

  /** A live sg_mapping; `id` numbers the mappings of one call in order of creation. */
  datatype Held = Held(id: nat, mapping: Mapping)

  function HeldLength(h: Option<Held>): nat {
    if h.Some? then h.value.mapping.length else 0
  }

  /** free_sg_buf: nothing for NULL. */
  function Free(freed: seq<nat>, h: Option<Held>): seq<nat> {
    if h.Some? then freed + [h.value.id] else freed
  }

  /**
   * sg_map_0 and sg_map_1 of a channel. `made` counts the mappings created, `freed` lists those passed to
   * free_sg_buf, and `lost` those whose last pointer was overwritten or dropped without freeing.
   */
  datatype Slots = Slots(map0: Option<Held>, map1: Option<Held>, made: nat, freed: seq<nat>, lost: seq<nat>) {
    function Bytes(): nat { HeldLength(map0) + HeldLength(map1) }

    function FreeFirst(): Slots { this.(freed := Free(freed, map0), map0 := None) }

    function FreeBoth(): Slots { this.(freed := Free(Free(freed, map0), map1), map0 := None, map1 := None) }

    /** sg_map_0 = sg_map_1; sg_map_1 = m. */
    function Shift(m: Mapping): Slots { this.(map0 := map1, map1 := Some(Held(made, m)), made := made + 1) }

    /** sg_map_1 = m, with whatever it pointed to before no longer reachable. */
    function Overwrite(m: Mapping): Slots
    {
      this.(map1 := Some(Held(made, m)), made := made + 1, lost := Free(lost, map1))
    }

    /** A return that frees nothing. */
    function Abandon(): Slots { this.(lost := Free(Free(lost, map0), map1), map0 := None, map1 := None) }

    predicate Holds(id: nat) { (map0.Some? && map0.value.id == id) || (map1.Some? && map1.value.id == id) }

    /** Mappings 0 .. made - 1 are each in exactly one place: freed, lost, or in one of the two slots. */
    ghost predicate Accounted() {
      && NoRepeats(freed + lost)
      && (forall id :: id in freed + lost ==> id < made && !Holds(id))
      && (forall id: nat | id < made :: id in freed + lost || Holds(id))
      && (map0.Some? ==> map0.value.id < made)
      && (map1.Some? ==> map1.value.id < made)
      && (map0.Some? && map1.Some? ==> map0.value.id != map1.value.id)
    }

    /** Every mapping was freed exactly once. */
    ghost predicate AllFreedOnce() {
      NoRepeats(freed) && forall id: nat :: id < made <==> id in freed
    }
  }

  const NO_SLOTS := Slots(None, None, 0, [], [])

  ghost predicate NoRepeats(ids: seq<nat>) {
    forall i, j | 0 <= i < j < |ids| :: ids[i] != ids[j]
  }

  lemma MoveIn(freed: seq<nat>, lost: seq<nat>, id: nat)
    requires NoRepeats(freed + lost) && id !in freed + lost
    ensures NoRepeats((freed + [id]) + lost) && NoRepeats(freed + (lost + [id]))
    ensures forall x :: x in (freed + [id]) + lost <==> x in freed + lost || x == id
    ensures forall x :: x in freed + (lost + [id]) <==> x in freed + lost || x == id
  {
    var before, middle, end := freed + lost, (freed + [id]) + lost, freed + (lost + [id]);
    assert end == before + [id];
    assert forall i | 0 <= i < |before| :: before[i] in before;
    forall i, j | 0 <= i < j < |middle| ensures middle[i] != middle[j] {
      assert i != |freed| ==> middle[i] == before[if i < |freed| then i else i - 1];
      assert j != |freed| ==> middle[j] == before[if j < |freed| then j else j - 1];
      assert middle[|freed|] == id;
    }
  }

  lemma FreeFirstKeeps(s: Slots)
    requires s.Accounted()
    ensures s.FreeFirst().Accounted()
  {
    if s.map0.Some? { MoveIn(s.freed, s.lost, s.map0.value.id); }
  }

  lemma FreeBothKeeps(s: Slots)
    requires s.Accounted()
    ensures s.FreeBoth().Accounted()
    ensures s.lost == [] ==> s.FreeBoth().AllFreedOnce()
  {
    FreeFirstKeeps(s);
    var t := s.FreeFirst();
    if s.map1.Some? { MoveIn(t.freed, t.lost, s.map1.value.id); }
    assert s.lost == [] ==> s.FreeBoth().freed + s.lost == s.FreeBoth().freed;
  }

  lemma ShiftKeeps(s: Slots, m: Mapping)
    requires s.Accounted() && s.map0.None?
    ensures s.Shift(m).Accounted()
  {}

  lemma OverwriteKeeps(s: Slots, m: Mapping)
    requires s.Accounted()
    ensures s.Overwrite(m).Accounted()
  {
    if s.map1.Some? { MoveIn(s.freed, s.lost, s.map1.value.id); }
  }

  lemma AbandonKeeps(s: Slots)
    requires s.Accounted()
    ensures s.Abandon().Accounted()
    ensures s.Abandon().lost == [] ==> s.Abandon().AllFreedOnce()
  {
    var t := s.(lost := Free(s.lost, s.map0), map0 := None);
    if s.map0.Some? { MoveIn(s.freed, s.lost, s.map0.value.id); }
    if s.map1.Some? { MoveIn(t.freed, t.lost, s.map1.value.id); }
    assert s.Abandon().lost == [] ==> s.freed + s.Abandon().lost == s.freed;
  }

  // ---- What the device has been told ----

  /** Writes 3 * k and 3 * k + 1 give the device the address of the common buffer, write 3 * k + 2 starts it. */
  ghost predicate Told(d: Device, first: nat, writes: seq<(nat, nat)>, k: nat)
    requires 3 * k + 2 < |writes|
  {
    var lo, hi, start := writes[3 * k], writes[3 * k + 1], writes[3 * k + 2];
    && lo.0 == first + 1 && hi.0 == first + 2 && start.0 == first
    && lo.1 < 0x1_0000_0000 && lo.1 + 0x1_0000_0000 * hi.1 == d.bufHwAddr
  }

  ghost predicate ElementsTold(writes: seq<(nat, nat)>, h: Option<Held>) {
    h.Some? ==> 3 * h.value.id + 2 < |writes| && writes[3 * h.value.id + 2].1 == 4 * h.value.mapping.NumSg()
  }

  /** One group of three writes for every mapping made, in order; a live one's gives four words for each element. */
  ghost predicate Announced(d: Device, first: nat, writes: seq<(nat, nat)>, s: Slots) {
    && |writes| == 3 * s.made
    && (forall k: nat | k < s.made :: Told(d, first, writes, k))
    && ElementsTold(writes, s.map0) && ElementsTold(writes, s.map1)
  }

  lemma AnnounceKeeps(d: Device, first: nat, writes: seq<(nat, nat)>, s: Slots, m: Mapping)
    requires Announced(d, first, writes, s)
    ensures Announced(d, first, Program(writes, d, first, m), s.Overwrite(m))
    ensures Announced(d, first, Program(writes, d, first, m), s.Shift(m))
  {
    var n := Program(writes, d, first, m);
    forall k: nat | k < s.made + 1 ensures Told(d, first, n, k) {
      if k < s.made { assert Told(d, first, writes, k); }
    }
  }
}
