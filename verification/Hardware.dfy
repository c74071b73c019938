/** Page-table entries and page contents, with the bit layout of 4-level paging
    (section 4.5 of volume 3A of the Intel SDM). */
module Hardware {

  /** A physical page number below 2^40: exactly the values PTE_ADDR_MASK can select. */
  type Frame = a: nat | a < 0x100_0000_0000

  /** The bits of an entry outside the address field; `rest` stands for the low bits with no role here. */
  datatype Flags = Flags(present: bool, writable: bool, user: bool, huge: bool, noExecute: bool, rest: nat)

  datatype Entry = Entry(addr: Frame, bits: Flags)

  const NO_FLAGS := Flags(false, false, false, false, false, 0)
  const NO_ENTRY := Entry(0, NO_FLAGS)

  type Table = t: seq<Entry> | |t| == 512 witness seq(512, _ => NO_ENTRY)
  type Byte = b: nat | b < 256
  type Page = p: seq<Byte> | |p| == 4096 witness seq(4096, _ => 0)

  function ZeroTable(): (t: Table)
    ensures forall i :: 0 <= i < 512 ==> t[i] == NO_ENTRY
  {
    seq(512, _ => NO_ENTRY)
  }

  function ZeroPage(): (p: Page)
    ensures forall i :: 0 <= i < 4096 ==> p[i] == 0
  {
    seq(4096, _ => 0)
  }
}
