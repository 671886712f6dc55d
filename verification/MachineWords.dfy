/** The sizes of the unsigned machine integers whose wrap-around is written out. */
module MachineWords {
  const TWO32: nat := 0x1_0000_0000
  const TWO63: nat := 0x8000_0000_0000_0000
  const TWO64: nat := 0x1_0000_0000_0000_0000
}
