/** The EZ-USB chips: their on-chip memory, and the predicates that decide whether a block needs external memory. */
module Chips {
  datatype Chip = An21 | Fx | Fx2 | Fx2lp

  /** fx_is_external, fx2_is_external and fx2lp_is_external; the AN21xx uses the first. */
  predicate External(chip: Chip, addr: nat, len: nat) {
    match chip
    case An21 => if addr <= 0x1b3f then addr + len > 0x1b40 else true
    case Fx => if addr <= 0x1b3f then addr + len > 0x1b40 else true
    case Fx2 =>
      if addr <= 0x1fff then addr + len > 0x2000
      else if addr >= 0xe000 && addr <= 0xe1ff then addr + len > 0xe200
      else true
    case Fx2lp =>
      if addr <= 0x3fff then addr + len > 0x4000
      else if addr >= 0xe000 && addr <= 0xe1ff then addr + len > 0xe200
      else true
  }

  /** The memory the built-in loader can write: code and data RAM from 0, and on the FX2 family 512 bytes at 0xe000. */
  predicate OnChip(chip: Chip, a: nat) {
    match chip
    case An21 => a < 0x1b40
    case Fx => a < 0x1b40
    case Fx2 => a < 0x2000 || 0xe000 <= a < 0xe200
    case Fx2lp => a < 0x4000 || 0xe000 <= a < 0xe200
  }

  function CpuControl(chip: Chip): nat {
    match chip
    case An21 => 0x7f92
    case Fx => 0x7f92
    case Fx2 => 0xe600
    case Fx2lp => 0xe600
  }

  /** A block is external exactly when it is not contained in on-chip memory, or is empty and starts outside it. */
  lemma ExternalIff(chip: Chip, addr: nat, len: nat)
    ensures len > 0 ==> (External(chip, addr, len) <==> exists a | addr <= a < addr + len :: !OnChip(chip, a))
    ensures len == 0 ==> (External(chip, addr, len) <==> !OnChip(chip, addr))
  {
    if len > 0 && External(chip, addr, len) {
      var edge := match chip case An21 => 0x1b40 case Fx => 0x1b40 case Fx2 => 0x2000 case Fx2lp => 0x4000;
      if addr < edge { assert !OnChip(chip, edge); }
      else if 0xe000 <= addr < 0xe200 && (chip == Fx2 || chip == Fx2lp) { assert !OnChip(chip, 0xe200); }
      else { assert !OnChip(chip, addr); }
    }
  }
}
