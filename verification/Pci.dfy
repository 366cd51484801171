/** The synthetic PCI configuration space.

    Each fake device is 256 bytes of configuration space behind a read and a
    write callback.  This module proves that, after any sequence of writes at
    any offset and width, a device's space is determined by two things only:
    the last accepted write to its Command register and the last accepted write
    to its power-management control register.  Identity, base address registers
    (section 6.2.5.1 of the PCI Local Bus Specification 3.0) and the capability
    list (section 6.7) follow. */
module Pci {
  import opened Options
  import opened Words

  const CONFIG_SIZE: nat := 256
  const MAX_DEVICES: nat := 32

  const COMMAND: nat := 0x04
  const BAR0: nat := 0x10
  const BAR_END: nat := 0x28
  const CAPABILITY_LIST: nat := 0x34
  const PMCSR: nat := 0x64

  datatype Status = Successful | BadRegisterNumber

  /** The module parameters. */
  datatype Ids = Ids(vendor: Uint32, device: Uint32, subsys: Uint32)

  type Config = c: seq<Byte> | |c| == CONFIG_SIZE witness seq(CONFIG_SIZE, i => 0)

  function Lo(v: nat): Byte { v % 0x100 }
  function Hi(v: nat): Byte { v / 0x100 % 0x100 }

  // ---------------------------------------------------------------- the layout, byte by byte

  /** Offsets 0x00 to 0x0f: identity, command, status, class. */
  function IdentityByte(ids: Ids, command: Uint16, i: nat): Byte {
    match i
    case 0x00 => Lo(ids.vendor)  case 0x01 => Hi(ids.vendor)
    case 0x02 => Lo(ids.device)  case 0x03 => Hi(ids.device)
    case 0x04 => Lo(command)     case 0x05 => Hi(command)
    case 0x06 => 0x10                                          // status: capability list
    case 0x08 => 0xa1                                          // revision
    case 0x0a => 0x02            case 0x0b => 0x03             // class 0x0302
    case 0x0c => 0x10                                          // cache line size
    case _ => 0
  }

  /** Offsets 0x10 to 0x5f: base address registers, subsystem, pointer, interrupt. */
  function SubsystemByte(ids: Ids, i: nat): Byte {
    match i
    case 0x2c => Lo(ids.vendor)  case 0x2d => Hi(ids.vendor)
    case 0x2e => Lo(ids.subsys)  case 0x2f => Hi(ids.subsys)
    case 0x34 => 0x60                                          // capabilities pointer
    case 0x3c => 0xff            case 0x3d => 0x01             // interrupt line, pin
    case _ => 0
  }

  /** Offsets 0x60 to 0xff: the three capabilities. */
  function CapabilityByte(power: nat, i: nat): Byte
    requires power < 4
  {
    match i
    case 0x60 => 0x01            case 0x61 => 0x68             // power management
    case 0x62 => 0x03
    case 0x64 => power
    case 0x68 => 0x05            case 0x69 => 0x78             // MSI
    case 0x6a => 0x80
    case 0x78 => 0x10                                          // PCI Express
    case 0x7a => 0x02
    case 0x7c => 0x10
    case _ => 0
  }

  /** The byte at offset `i` of a device whose Command register holds `command`
      and whose power state is `power`. */
  function ByteAt(ids: Ids, command: Uint16, power: nat, i: nat): Byte
    requires power < 4
  {
    if i < 0x10 then IdentityByte(ids, command, i)
    else if i < 0x60 then SubsystemByte(ids, i)
    else CapabilityByte(power, i)
  }

  function Layout(ids: Ids, command: Uint16, power: nat): (c: Config)
    requires power < 4
  {
    seq(CONFIG_SIZE, i requires 0 <= i < CONFIG_SIZE => ByteAt(ids, command, power, i))
  }

  // ---------------------------------------------------------------- the callbacks, on values

  function Load16(c: Config, where: nat): Uint16
    requires where + 2 <= CONFIG_SIZE
  {
    c[where] as nat + 0x100 * c[where + 1] as nat
  }

  function Load32(c: Config, where: nat): Uint32
    requires where + 4 <= CONFIG_SIZE
  {
    c[where] as nat + 0x100 * c[where + 1] as nat
    + 0x1_0000 * c[where + 2] as nat + 0x100_0000 * c[where + 3] as nat
  }

  function Store16(c: Config, where: nat, v: nat): Config
    requires where + 2 <= CONFIG_SIZE
  {
    c[where := Lo(v)][where + 1 := Hi(v)]
  }

  predicate IsBar(where: int) {
    BAR0 <= where < BAR_END && where % 4 == 0
  }

  /** The slot of `devfn` when it is one of the `count` devices. */
  function DevIndex(devfn: Uint32, count: nat): (k: int)
    ensures -1 <= k < count && (0 <= k ==> devfn % 8 == 0 && k == devfn / 8 % 32)
    ensures k == -1 <==> devfn % 8 != 0 || devfn / 8 % 32 >= count
  {
    if devfn % 8 != 0 then -1
    else if devfn / 8 % 32 >= count then -1
    else devfn / 8 % 32
  }

  predicate InRange(where: int, size: int) {
    0 <= where && where + size <= CONFIG_SIZE
  }

  /** What a write in range does to the addressed device. */
  function WriteConfig(c: Config, where: int, size: int, val: Uint32): Config {
    if where == COMMAND && size == 2 then Store16(c, COMMAND, val % 0x1_0000)
    else if IsBar(where) && size == 4 then c[where := 0][where + 1 := 0][where + 2 := 0][where + 3 := 0]
    else if where == PMCSR && size == 2 then
      var cur := Load16(c, PMCSR);
      Store16(c, PMCSR, cur / 4 * 4 + val % 4)
    else c
  }

  function ReadConfig(c: Config, where: int, size: int): Option<Uint32>
    requires InRange(where, size)
  {
    if size == 1 then Some(c[where])
    else if size == 2 then Some(Load16(c, where))
    else if size == 4 then Some(Load32(c, where))
    else None
  }

  datatype Access = Access(bus: nat, devfn: Uint32, where: int, size: int, val: Uint32)

  /** The write reaches device `k`'s write callback. */
  predicate Hits(a: Access, k: nat, count: nat) {
    a.bus == 0 && DevIndex(a.devfn, count) == k && InRange(a.where, a.size)
  }

  function WriteAll(cs: seq<Config>, a: Access): (r: seq<Config>)
    ensures |r| == |cs|
  {
    seq(|cs|, k requires 0 <= k < |cs| =>
      if Hits(a, k, |cs|) then WriteConfig(cs[k], a.where, a.size, a.val) else cs[k])
  }

  // ---------------------------------------------------------------- every history

  /** The fresh space: memory and bus mastering enabled, full power. */
  function Fresh(ids: Ids, count: nat): (cs: seq<Config>)
    ensures |cs| == count
  {
    seq(count, k => Layout(ids, 0x0006, 0))
  }

  function Run(ids: Ids, count: nat, history: seq<Access>): (cs: seq<Config>)
    ensures |cs| == count
  {
    if history == [] then Fresh(ids, count)
    else WriteAll(Run(ids, count, history[..|history| - 1]), history[|history| - 1])
  }

  /** The value of the last two-byte write to device `k`'s Command register. */
  function LastCommand(history: seq<Access>, k: nat, count: nat): Uint16 {
    if history == [] then 0x0006
    else
      var a := history[|history| - 1];
      if Hits(a, k, count) && a.where == COMMAND && a.size == 2 then a.val % 0x1_0000
      else LastCommand(history[..|history| - 1], k, count)
  }

  /** The power state of the last two-byte write to device `k`'s PMCSR. */
  function LastPower(history: seq<Access>, k: nat, count: nat): (p: nat)
    ensures p < 4
  {
    if history == [] then 0
    else
      var a := history[|history| - 1];
      if Hits(a, k, count) && a.where == PMCSR && a.size == 2 then a.val % 4
      else LastPower(history[..|history| - 1], k, count)
  }

  lemma HalfBytes(v: Uint16)
    ensures Lo(v) + 0x100 * Hi(v) == v
  {
  }

  /** A write keeps the layout's shape, whatever its offset and width. */
  lemma WriteKeepsLayout(ids: Ids, command: Uint16, power: nat, where: int, size: int, val: Uint32)
    requires power < 4
    ensures WriteConfig(Layout(ids, command, power), where, size, val) ==
            Layout(ids,
                   if where == COMMAND && size == 2 then val % 0x1_0000 else command,
                   if where == PMCSR && size == 2 then val % 4 else power)
  {
    var c := Layout(ids, command, power);
    if IsBar(where) && size == 4 {
      assert forall i :: BAR0 <= i < BAR_END ==> c[i] == 0;
      assert WriteConfig(c, where, size, val) == c;
    } else if where == PMCSR && size == 2 {
      assert Load16(c, PMCSR) == power;
      assert Lo(val % 4) == val % 4 && Hi(val % 4) == 0;
    }
  }

  /** After any history, each device is laid out with its last accepted Command
      and power-state writes: last writer wins, nothing else is writable, and
      no device sees another's writes. */
  lemma {:induction false} LastWriteWins(ids: Ids, count: nat, history: seq<Access>, k: nat)
    requires k < count
    ensures Run(ids, count, history)[k] ==
            Layout(ids, LastCommand(history, k, count), LastPower(history, k, count))
  {
    if history != [] {
      var init, a := history[..|history| - 1], history[|history| - 1];
      LastWriteWins(ids, count, init, k);
      WriteKeepsLayout(ids, LastCommand(init, k, count), LastPower(init, k, count), a.where, a.size, a.val);
    }
  }

  /** A device's space depends only on the writes that hit it. */
  lemma {:induction false} OthersDoNotMatter(ids: Ids, count: nat, history: seq<Access>, more: seq<Access>, k: nat)
    requires k < count
    requires forall j :: 0 <= j < |more| ==>
               more[j].bus != 0 || more[j].devfn % 8 != 0 || more[j].devfn / 8 % 32 != k
    ensures Run(ids, count, history + more)[k] == Run(ids, count, history)[k]
  {
    if more == [] {
      assert history + more == history;
    } else {
      var init := more[..|more| - 1];
      var all := history + more;
      assert all[..|all| - 1] == history + init && all[|all| - 1] == more[|more| - 1];
      OthersDoNotMatter(ids, count, history, init, k);
    }
  }

  // ---------------------------------------------------------------- what the layout promises

  /** `offsets` is the capability list reached from pointer `p`; it ends. */
  predicate IsChain(c: Config, p: nat, offsets: seq<nat>)
    decreases |offsets|
  {
    if offsets == [] then p == 0
    else p != 0 && p == offsets[0] && p + 1 < CONFIG_SIZE && IsChain(c, c[p + 1], offsets[1..])
  }

  /** The chain from a pointer is unique, so walking it visits these offsets and stops. */
  lemma {:induction false} ChainIsUnique(c: Config, p: nat, xs: seq<nat>, ys: seq<nat>)
    requires IsChain(c, p, xs) && IsChain(c, p, ys)
    ensures xs == ys
    decreases |xs|
  {
    if xs != [] {
      ChainIsUnique(c, c[p + 1], xs[1..], ys[1..]);
      assert xs == [xs[0]] + xs[1..] && ys == [ys[0]] + ys[1..];
    }
  }

  lemma ChainOf(ids: Ids, command: Uint16, power: nat)
    requires power < 4
    ensures var c := Layout(ids, command, power);
            IsChain(c, c[CAPABILITY_LIST], [0x60, 0x68, 0x78])
            && c[0x60] == 0x01 && c[0x68] == 0x05 && c[0x78] == 0x10
  {
    var c := Layout(ids, command, power);
    assert c[0x34] == 0x60 && c[0x61] == 0x68 && c[0x69] == 0x78 && c[0x79] == 0;
    assert IsChain(c, c[0x79], []);
    assert [0x78][1..] == [] && IsChain(c, c[0x69], [0x78]);
    assert [0x68, 0x78][1..] == [0x78] && IsChain(c, c[0x61], [0x68, 0x78]);
    assert [0x60, 0x68, 0x78][1..] == [0x68, 0x78];
  }

  lemma ReadsIdentity(ids: Ids, command: Uint16, power: nat)
    requires power < 4
    ensures var c := Layout(ids, command, power);
            && ReadConfig(c, 0x00, 2) == Some(ids.vendor % 0x1_0000)
            && ReadConfig(c, 0x02, 2) == Some(ids.device % 0x1_0000)
  {
    HalfOf(ids.vendor);
    HalfOf(ids.device);
  }

  lemma ReadsClass(ids: Ids, command: Uint16, power: nat)
    requires power < 4
    ensures var c := Layout(ids, command, power);
            ReadConfig(c, 0x0a, 2) == Some(0x0302) && ReadConfig(c, 0x0e, 1) == Some(0)
  {
  }

  lemma ReadsSubsystem(ids: Ids, command: Uint16, power: nat)
    requires power < 4
    ensures var c := Layout(ids, command, power);
            && ReadConfig(c, 0x2c, 2) == Some(ids.vendor % 0x1_0000)
            && ReadConfig(c, 0x2e, 2) == Some(ids.subsys % 0x1_0000)
  {
    HalfOf(ids.vendor);
    HalfOf(ids.subsys);
  }

  lemma ReadsCommand(ids: Ids, command: Uint16, power: nat)
    requires power < 4
    ensures ReadConfig(Layout(ids, command, power), COMMAND, 2) == Some(command)
  {
    HalfBytes(command);
  }

  lemma ReadsPower(ids: Ids, command: Uint16, power: nat)
    requires power < 4
    ensures ReadConfig(Layout(ids, command, power), PMCSR, 2) == Some(power)
  {
  }

  lemma ReadsBar(ids: Ids, command: Uint16, power: nat, where: int, size: int)
    requires power < 4 && size in {1, 2, 4} && BAR0 <= where && where + size <= BAR_END
    ensures ReadConfig(Layout(ids, command, power), where, size) == Some(0)
  {
    var c := Layout(ids, command, power);
    assert forall i :: BAR0 <= i < BAR_END ==> c[i] == 0;
  }

  /** Identity, class, subsystem, control registers and capability list. */
  ghost predicate Itself(c: Config, ids: Ids, command: Uint16, power: nat) {
    && ReadConfig(c, 0x00, 2) == Some(ids.vendor % 0x1_0000)
    && ReadConfig(c, 0x02, 2) == Some(ids.device % 0x1_0000)
    && ReadConfig(c, 0x0a, 2) == Some(0x0302)
    && ReadConfig(c, 0x0e, 1) == Some(0)
    && ReadConfig(c, 0x2c, 2) == Some(ids.vendor % 0x1_0000)
    && ReadConfig(c, 0x2e, 2) == Some(ids.subsys % 0x1_0000)
    && ReadConfig(c, COMMAND, 2) == Some(command)
    && ReadConfig(c, PMCSR, 2) == Some(power)
    && IsChain(c, c[CAPABILITY_LIST], [0x60, 0x68, 0x78])
  }

  lemma LayoutIsItself(ids: Ids, command: Uint16, power: nat)
    requires power < 4
    ensures Itself(Layout(ids, command, power), ids, command, power)
  {
    ReadsIdentity(ids, command, power);
    ReadsClass(ids, command, power);
    ReadsSubsystem(ids, command, power);
    ReadsCommand(ids, command, power);
    ReadsPower(ids, command, power);
    ChainOf(ids, command, power);
  }

  /** After any history every device keeps its identity and its capability list,
      reads 0 from the base address registers at every width, and has only the
      two low bits of PMCSR set. */
  lemma {:induction false} DeviceStaysItself(ids: Ids, count: nat, history: seq<Access>, k: nat)
    requires k < count
    ensures LastPower(history, k, count) < 4
    ensures Itself(Run(ids, count, history)[k], ids, LastCommand(history, k, count), LastPower(history, k, count))
    ensures forall where: int, size: int | size in {1, 2, 4} && BAR0 <= where && where + size <= BAR_END ::
              ReadConfig(Run(ids, count, history)[k], where, size) == Some(0)
  {
    LastWriteWins(ids, count, history, k);
    var command, power := LastCommand(history, k, count), LastPower(history, k, count);
    LayoutIsItself(ids, command, power);
    forall where: int, size: int | size in {1, 2, 4} && BAR0 <= where && where + size <= BAR_END
      ensures ReadConfig(Run(ids, count, history)[k], where, size) == Some(0)
    {
      ReadsBar(ids, command, power, where, size);
    }
  }

  /** The registers as aligned 32-bit words, in numbers. */
  function Dword(ids: Ids, command: Uint16, power: nat, where: nat): nat {
    match where
    case 0x00 => ids.device % 0x1_0000 * 0x1_0000 + ids.vendor % 0x1_0000
    case 0x04 => 0x0010_0000 + command
    case 0x08 => 0x0302_00a1
    case 0x0c => 0x10
    case 0x2c => ids.subsys % 0x1_0000 * 0x1_0000 + ids.vendor % 0x1_0000
    case 0x34 => 0x60
    case 0x3c => 0x01ff
    case 0x60 => 0x0003_6801
    case 0x64 => power
    case 0x68 => 0x0080_7805
    case 0x78 => 0x0002_0010
    case 0x7c => 0x10
    case _ => 0
  }

  lemma LowWords(ids: Ids, command: Uint16, power: nat, where: nat)
    requires power < 4 && where % 4 == 0 && where < 0x10
    ensures ReadConfig(Layout(ids, command, power), where, 4) == Some(Dword(ids, command, power, where))
  {
    HalfOf(ids.vendor);
    HalfOf(ids.device);
    HalfBytes(command);
    assert where == 0 || where == 4 || where == 8 || where == 12;
  }

  lemma MiddleWords(ids: Ids, command: Uint16, power: nat, where: nat)
    requires power < 4 && where % 4 == 0 && 0x10 <= where < 0x60
    ensures ReadConfig(Layout(ids, command, power), where, 4) == Some(Dword(ids, command, power, where))
  {
    HalfOf(ids.vendor);
    HalfOf(ids.subsys);
    var c := Layout(ids, command, power);
    assert where + 3 < 0x60;
    assert forall i :: where <= i < where + 4 ==> c[i] == SubsystemByte(ids, i);
  }

  lemma HighWords(ids: Ids, command: Uint16, power: nat, where: nat)
    requires power < 4 && where % 4 == 0 && 0x60 <= where < 0x100
    ensures ReadConfig(Layout(ids, command, power), where, 4) == Some(Dword(ids, command, power, where))
  {
    var c := Layout(ids, command, power);
    assert forall i :: where <= i < where + 4 ==> c[i] == CapabilityByte(power, i);
  }

  /** After any history every register, read as an aligned 32-bit word, holds its
      number: only Command and the power state ever differ from the fresh device. */
  lemma {:induction false} RegistersAre(ids: Ids, count: nat, history: seq<Access>, k: nat, where: nat)
    requires k < count && where % 4 == 0 && where < 0x100
    ensures ReadConfig(Run(ids, count, history)[k], where, 4) ==
            Some(Dword(ids, LastCommand(history, k, count), LastPower(history, k, count), where))
    ensures LastCommand([], k, count) == 0x0006 && LastPower([], k, count) == 0
  {
    LastWriteWins(ids, count, history, k);
    var command, power := LastCommand(history, k, count), LastPower(history, k, count);
    if where < 0x10 {
      LowWords(ids, command, power, where);
    } else if where < 0x60 {
      MiddleWords(ids, command, power, where);
    } else {
      HighWords(ids, command, power, where);
    }
  }

  /** A two-byte write to a device's Command register is read back, and of one to its
      PMCSR the two low bits are; the other register keeps its value. */
  lemma {:induction false} WritesAreReadBack(ids: Ids, count: nat, history: seq<Access>, k: nat,
                                             devfn: Uint32, val: Uint32)
    requires k < count && k < 32 && devfn % 8 == 0 && devfn / 8 % 32 == k
    ensures var c := Run(ids, count, history + [Access(0, devfn, 0x04, 2, val)])[k];
            && ReadConfig(c, 0x04, 2) == Some(val % 0x1_0000)
            && ReadConfig(c, 0x64, 2) == ReadConfig(Run(ids, count, history)[k], 0x64, 2)
    ensures var c := Run(ids, count, history + [Access(0, devfn, 0x64, 2, val)])[k];
            && ReadConfig(c, 0x64, 2) == Some(val % 4)
            && ReadConfig(c, 0x04, 2) == ReadConfig(Run(ids, count, history)[k], 0x04, 2)
  {
    OneWriteIsReadBack(ids, count, history, k, Access(0, devfn, 0x04, 2, val));
    OneWriteIsReadBack(ids, count, history, k, Access(0, devfn, 0x64, 2, val));
  }

  lemma {:induction false} OneWriteIsReadBack(ids: Ids, count: nat, history: seq<Access>, k: nat, a: Access)
    requires k < count && k < 32 && a.bus == 0 && a.devfn % 8 == 0 && a.devfn / 8 % 32 == k
    requires (a.where == 0x04 || a.where == 0x64) && a.size == 2
    ensures var now, was := Run(ids, count, history + [a])[k], Run(ids, count, history)[k];
            if a.where == 0x04
            then ReadConfig(now, 0x04, 2) == Some(a.val % 0x1_0000) && ReadConfig(now, 0x64, 2) == ReadConfig(was, 0x64, 2)
            else ReadConfig(now, 0x64, 2) == Some(a.val % 4) && ReadConfig(now, 0x04, 2) == ReadConfig(was, 0x04, 2)
  {
    var all := history + [a];
    assert all[..|all| - 1] == history && all[|all| - 1] == a;
    LastWriteWins(ids, count, history, k);
    LastWriteWins(ids, count, all, k);
    ReadsCommand(ids, LastCommand(all, k, count), LastPower(all, k, count));
    ReadsPower(ids, LastCommand(all, k, count), LastPower(all, k, count));
    ReadsCommand(ids, LastCommand(history, k, count), LastPower(history, k, count));
    ReadsPower(ids, LastCommand(history, k, count), LastPower(history, k, count));
  }

  lemma HalfOf(v: Uint32)
    ensures Lo(v) + 0x100 * Hi(v) == v % 0x1_0000
  {
  }

  // ---------------------------------------------------------------- the driver

  method PutLe16(c: array<Byte>, where: nat, v: nat)
    requires where + 2 <= c.Length
    modifies c
    ensures c[..] == old(c[..])[where := Lo(v)][where + 1 := Hi(v)]
  {
    c[where], c[where + 1] := Lo(v), Hi(v);
  }

  /** Outside `[lo, hi)` nothing changed. */
  twostate predicate OnlyWithin(c: array<Byte>, lo: nat, hi: nat)
    reads c
  {
    forall i :: 0 <= i < c.Length && !(lo <= i < hi) ==> c[i] == old(c[i])
  }

  /** fake_pci_init_config, offsets 0x00 to 0x07: IDs, command, status. */
  method InitIds(c: array<Byte>, ids: Ids)
    requires c.Length == CONFIG_SIZE
    modifies c
    ensures forall i :: 0 <= i < 0x08 ==> c[i] == IdentityByte(ids, 0x0006, i)
    ensures OnlyWithin(c, 0x00, 0x08)
  {
    c[0x00], c[0x01] := Lo(ids.vendor), Hi(ids.vendor);
    c[0x02], c[0x03] := Lo(ids.device), Hi(ids.device);
    c[0x04], c[0x05] := 0x06, 0x00;
    c[0x06], c[0x07] := 0x10, 0x00;
  }

  /** fake_pci_init_config, offsets 0x08 to 0x0f: class and header type. */
  method InitClass(c: array<Byte>, ids: Ids)
    requires c.Length == CONFIG_SIZE && c[0x0f] == 0
    modifies c
    ensures forall i :: 0x08 <= i < 0x10 ==> c[i] == IdentityByte(ids, 0x0006, i)
    ensures OnlyWithin(c, 0x08, 0x10)
  {
    c[0x08], c[0x09] := 0xa1, 0x00;
    c[0x0a], c[0x0b] := 0x02, 0x03;
    c[0x0c], c[0x0d], c[0x0e] := 0x10, 0x00, 0x00;
  }

  /** fake_pci_init_config, offsets 0x10 to 0x5f; the base address registers stay 0. */
  method InitSubsystem(c: array<Byte>, ids: Ids)
    requires c.Length == CONFIG_SIZE && forall i :: 0x10 <= i < 0x60 ==> c[i] == 0
    modifies c
    ensures forall i :: 0x10 <= i < 0x60 ==> c[i] == SubsystemByte(ids, i)
    ensures OnlyWithin(c, 0x10, 0x60)
  {
    c[0x2c], c[0x2d] := Lo(ids.vendor), Hi(ids.vendor);
    c[0x2e], c[0x2f] := Lo(ids.subsys), Hi(ids.subsys);
    c[0x34] := 0x60;
    c[0x3c], c[0x3d] := 0xff, 0x01;
  }

  /** fake_pci_init_config, the power-management capability. */
  method InitPm(c: array<Byte>)
    requires c.Length == CONFIG_SIZE && forall i :: 0x60 <= i < 0x68 ==> c[i] == 0
    modifies c
    ensures forall i :: 0x60 <= i < 0x68 ==> c[i] == CapabilityByte(0, i)
    ensures OnlyWithin(c, 0x60, 0x68)
  {
    c[0x60], c[0x61] := 0x01, 0x68;
    c[0x62], c[0x63] := 0x03, 0x00;
    c[0x64], c[0x65] := 0x00, 0x00;
  }

  /** fake_pci_init_config, the MSI capability and the PCI Express capability. */
  method InitMsiAndExpress(c: array<Byte>)
    requires c.Length == CONFIG_SIZE && forall i :: 0x68 <= i < CONFIG_SIZE ==> c[i] == 0
    modifies c
    ensures forall i :: 0x68 <= i < CONFIG_SIZE ==> c[i] == CapabilityByte(0, i)
    ensures OnlyWithin(c, 0x68, CONFIG_SIZE)
  {
    c[0x68], c[0x69], c[0x6a] := 0x05, 0x78, 0x80;
    c[0x78], c[0x79], c[0x7a] := 0x10, 0x00, 0x02;
    c[0x7c] := 0x10;
  }

  /** fake_pci_init_config. */
  method InitConfig(c: array<Byte>, ids: Ids)
    requires c.Length == CONFIG_SIZE
    modifies c
    ensures c[..] == Layout(ids, 0x0006, 0)
  {
    for i := 0 to CONFIG_SIZE
      invariant forall j :: 0 <= j < i ==> c[j] == 0
    {
      c[i] := 0;
    }
    InitIds(c, ids);
    InitClass(c, ids);
    InitSubsystem(c, ids);
    InitPm(c);
    InitMsiAndExpress(c);
  }

  class Bus {
    const devices: seq<array<Byte>>

    ghost predicate Valid() {
      && 1 <= |devices| <= MAX_DEVICES
      && (forall k :: 0 <= k < |devices| ==> devices[k].Length == CONFIG_SIZE)
      && (forall j, k :: 0 <= j < k < |devices| ==> devices[j] != devices[k])
    }

    ghost function Configs(): (cs: seq<Config>)
      requires Valid()
      reads devices
      ensures |cs| == |devices|
    {
      seq(|devices|, k requires 0 <= k < |devices| reads devices => devices[k][..])
    }

    constructor (devices: seq<array<Byte>>)
      ensures this.devices == devices
    {
      this.devices := devices;
    }

    /** fake_pci_read; no value is set for a width other than 1, 2 or 4. */
    method Read(bus: nat, devfn: Uint32, where: int, size: int) returns (status: Status, val: Option<Uint32>)
      requires Valid()
      ensures var k := DevIndex(devfn, |devices|);
              (status, val) ==
              if bus != 0 || k == -1 then (Successful, Some(0xffff_ffff))
              else if where < 0 || where + size > 0x100 then (BadRegisterNumber, Some(0))
              else var v := ReadConfig(Configs()[k], where, size);
                   (if v.Some? then Successful else BadRegisterNumber, v)
    {
      if bus != 0 { return Successful, Some(0xffff_ffff); }
      var k := DevIndex(devfn, |devices|);
      if k < 0 { return Successful, Some(0xffff_ffff); }
      if where < 0 || where + size > CONFIG_SIZE { return BadRegisterNumber, Some(0); }
      var c := devices[k];
      assert Configs()[k] == c[..];
      match size {
        case 1 => return Successful, Some(c[where]);
        case 2 => return Successful, Some(Load16(c[..], where));
        case 4 => return Successful, Some(Load32(c[..], where));
        case _ => return BadRegisterNumber, None;
      }
    }

    /** fake_pci_write. */
    method Write(bus: nat, devfn: Uint32, where: int, size: int, val: Uint32) returns (status: Status)
      requires Valid()
      modifies devices
      ensures Configs() == WriteAll(old(Configs()), Access(bus, devfn, where, size, val))
      ensures status == if bus == 0 && DevIndex(devfn, |devices|) >= 0 && (where < 0 || where + size > 0x100)
                        then BadRegisterNumber else Successful
    {
      if bus != 0 { return Successful; }
      var k := DevIndex(devfn, |devices|);
      if k < 0 { return Successful; }
      if where < 0 || where + size > CONFIG_SIZE { return BadRegisterNumber; }
      var c := devices[k];
      ghost var before := c[..];
      assert old(Configs())[k] == before;
      if where == COMMAND {
        if size == 2 { PutLe16(c, where, val % 0x1_0000); }
      } else if where == 0x10 || where == 0x14 || where == 0x18 || where == 0x1c || where == 0x20 || where == 0x24 {
        if size == 4 { PutLe16(c, where, 0); PutLe16(c, where + 2, 0); }
      } else if where == PMCSR {
        if size == 2 {
          var cur := Load16(c[..], where);
          PutLe16(c, where, cur / 4 * 4 + val % 4);
        }
      }
      assert c[..] == WriteConfig(before, where, size, val);
      return Successful;
    }
  }

  datatype Loading = Loaded | EINVAL | ENOMEM | Failed(ret: int)

  /** fake_pci_init; the outcome of the allocation and what bringing up the bus
      returns are parameters. */
  method LoadModule(ids: Ids, count: Uint32, alloc: bool, bringUp: int) returns (result: Loading, bus: Bus?)
    ensures result == if count < 1 || count > 32 then EINVAL
                      else if !alloc then ENOMEM
                      else if bringUp != 0 then Failed(bringUp) else Loaded
    ensures bus != null <==> result == Loaded
    ensures bus != null ==> bus.Valid() && |bus.devices| == count && bus.Configs() == Fresh(ids, count)
  {
    if count == 0 || count > MAX_DEVICES { return EINVAL, null; }
    if !alloc { return ENOMEM, null; }
    var devices: seq<array<Byte>> := [];
    for i := 0 to count
      invariant |devices| == i
      invariant forall k :: 0 <= k < i ==>
                  fresh(devices[k]) && devices[k].Length == CONFIG_SIZE && devices[k][..] == Layout(ids, 0x0006, 0)
      invariant forall j, k :: 0 <= j < k < i ==> devices[j] != devices[k]
    {
      var c := new Byte[CONFIG_SIZE];
      InitConfig(c, ids);
      devices := devices + [c];
    }
    if bringUp != 0 { return Failed(bringUp), null; }
    bus := new Bus(devices);
    result := Loaded;
  }
}
