/** Stage-2 descriptors of the long-descriptor format (section B3.6 of ARM DDI 0406C) and
    the table walk that gives them their meaning. A descriptor is its bit fields; assigning
    the masked bits [39:12] is assigning `base`. */
module Lpae {
  import opened Machine

  const FRAMES := 0x1000_0000     // bits [39:12] hold 28 bits
  const ENTRIES := 512            // entries of a table, which fills one page

  datatype Desc = Desc(
    valid: bool, table: bool, mattr: nat, read: bool, write: bool, sh: nat, af: bool, sbz4: nat,
    base: nat, sbz3: nat, hint: nat, sbz2: nat, xn: bool, avail: nat, sbz1: nat)

  function ConfTable(d: Desc, baddr: nat, valid: bool): Desc {
    d.(valid := valid, table := valid, base := baddr / PAGE % FRAMES)
  }

  function EnableTable(d: Desc): Desc {
    d.(valid := true, table := true)
  }

  function Invalid(d: Desc): Desc {
    d.(valid := false)
  }

  function MapPage(d: Desc, pa: nat, mattr: nat): Desc {
    d.(valid := true, table := true, base := pa / PAGE % FRAMES, sbz3 := 0,
       mattr := mattr % 16, read := true, write := true, sh := 0, af := true, sbz4 := 0,
       hint := 0, sbz2 := 0, xn := false, sbz1 := 0)
  }

  /** What the descriptor that ends a walk lets the guest do, its shareability and its access flag. */
  datatype Rights = Rights(read: bool, write: bool, execute: bool, sh: nat, accessed: bool)

  function RightsOf(d: Desc): Rights {
    Rights(d.read, d.write, !d.xn, d.sh, d.af)
  }

  datatype Translation = Fault | Outside | Output(pa: nat, mattr: nat, rights: Rights)

  /** The entry `index` of the table in page frame `frame`, where `t` lies in memory from `root` on. */
  predicate InMemory(t: seq<Desc>, root: nat, frame: nat, index: nat) {
    root <= frame && (frame - root) * ENTRIES + index < |t|
  }

  function Entry(t: seq<Desc>, root: nat, frame: nat, index: nat): Desc
    requires InMemory(t, root, frame, index)
  {
    t[(frame - root) * ENTRIES + index]
  }

  /** A walk of three levels starting at the first-level table in frame `root`: region
      `i1` of 1 GB, block `i2` of 2 MB, page `i3`, byte `offset` in the page. */
  function Walk(t: seq<Desc>, root: nat, i1: nat, i2: nat, i3: nat, offset: nat): Translation {
    if !InMemory(t, root, root, i1) then Outside
    else
      var d1 := Entry(t, root, root, i1);
      if !d1.valid then Fault
      else if !d1.table then
        Output(d1.base / 0x4_0000 * 0x4000_0000 + (i2 * ENTRIES + i3) * PAGE + offset, d1.mattr, RightsOf(d1))
      else if !InMemory(t, root, d1.base, i2) then Outside
      else
        var d2 := Entry(t, root, d1.base, i2);
        if !d2.valid then Fault
        else if !d2.table then Output(d2.base / ENTRIES * 0x20_0000 + i3 * PAGE + offset, d2.mattr, RightsOf(d2))
        else if !InMemory(t, root, d2.base, i3) then Outside
        else
          var d3 := Entry(t, root, d2.base, i3);
          if !d3.valid || !d3.table then Fault
          else Output(d3.base * PAGE + offset, d3.mattr, RightsOf(d3))
  }
}
