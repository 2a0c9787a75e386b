/** Access lists as they travel in a PACK: one column a field, one slot a row. */
module AccessList {
  import opened Text

  type uint = x: nat | x < UINT_LIMIT
  newtype byte = x: int | 0 <= x < 256
  type Mac = m: seq<byte> | |m| == 6 witness seq(6, i => 0)
  type Ip6 = m: seq<byte> | |m| == 16 witness seq(16, i => 0)
  type Str255 = s: string | |s| <= 255

  const ZERO_IP6: Ip6 := [0, 0, 0, 0, 0, 0, 0, 0, 0, 0, 0, 0, 0, 0, 0, 0]
  /** 223.255.255.254, the IPv4 address by which an IP structure says that it holds an IPv6 one. */
  const IP6_MARKER: uint := 0xFEFF_FFDF
  /** 223.255.255.253, what the IPv4 fields of an IPv6 entry are sent as. */
  const IP6_ENTRY_ADDRESS: uint := 0xFDFF_FFDF
  const IP6_ENTRY_MASK: uint := 0xFFFF_FFFF
  /** The number of columns of an entry. */
  const FIELDS: nat := 46
  const MAX_ELEMENT_NUM: nat := 131072

  // ---- Access list entries ----

  /** The address fields of one family. */
  datatype Addresses<+T> = Addresses(srcIp: T, srcSubnetMask: T, destIp: T, destSubnetMask: T)

  /** Derived fields that are not sent. */
  datatype Unsent = Unsent(
    srcUsernameHash: nat, isSrcUsernameIncludeOrExclude: bool,
    destUsernameHash: nat, isDestUsernameIncludeOrExclude: bool)

  datatype Access = Access(
    id: uint, note: Str255, active: bool, priority: uint, discard: bool, ipv4: Addresses<uint>,
    protocol: uint, srcPortStart: uint, srcPortEnd: uint, destPortStart: uint, destPortEnd: uint,
    srcUsername: Str255, destUsername: Str255,
    checkSrcMac: bool, srcMacAddress: Mac, srcMacMask: Mac,
    checkDstMac: bool, dstMacAddress: Mac, dstMacMask: Mac,
    checkTcpState: bool, established: bool, delay: uint, jitter: uint, loss: uint, redirectUrl: Str255,
    isIPv6: bool, ipv6: Addresses<Ip6>, uniqueId: uint, unsent: Unsent)

  const NOTHING_UNSENT: Unsent := Unsent(0, false, 0, false)
  const NO_IP6: Addresses<Ip6> := Addresses(ZERO_IP6, ZERO_IP6, ZERO_IP6, ZERO_IP6)
  const IP6_ENTRY: Addresses<uint> := Addresses(IP6_ENTRY_ADDRESS, IP6_ENTRY_MASK, IP6_ENTRY_ADDRESS, IP6_ENTRY_MASK)

  /** An entry after one trip: the fields its address family does not use, and those that are not
      sent, have lost what they held. */
  function Canonical(a: Access): Access {
    if a.isIPv6 then a.(unsent := NOTHING_UNSENT, ipv4 := IP6_ENTRY)
    else a.(unsent := NOTHING_UNSENT, ipv6 := NO_IP6)
  }

  // ---- PACK ----

  datatype IntColumn = Id | Priority | Protocol | SrcPortStart | SrcPortEnd | DestPortStart | DestPortEnd
    | Delay | Jitter | Loss | UniqueId
  datatype BoolColumn = Active | Discard | CheckSrcMac | CheckDstMac | CheckTcpState | Established | IsIPv6
  datatype StrColumn = SrcUsername | DestUsername | RedirectUrl
  datatype MacColumn = SrcMacAddress | SrcMacMask | DstMacAddress | DstMacMask
  datatype AddressColumn = SrcIpAddress | SrcSubnetMask | DestIpAddress | DestSubnetMask
  /** An address is sent as four columns: the plain name and three more with a suffix. */
  datatype IpPart = Ipv6Bool | Ipv6Array | Ipv6ScopeId | Plain

  /** The names of the columns; the strings are pairwise different in any letter case. */
  datatype Key = HubName | Ints(ic: IntColumn) | Bools(bc: BoolColumn) | Strs(sc: StrColumn) | Note
    | Macs(mc: MacColumn) | Ips(pc: AddressColumn, part: IpPart) | Ip6s(xc: AddressColumn)

  type RowKey = key: Key | key != HubName witness Note

  datatype Kind = IntKind | StrKind | UniStrKind | DataKind
  datatype Value = Int(i: uint) | Str(s: string) | UniStr(u: string) | Data(d: seq<byte>)

  /** A slot that was never filled is a null pointer. */
  datatype Element = Element(kind: Kind, values: seq<Option<Value>>)

  type Columns = map<Key, Element>

  function KindOf(v: Value): Kind {
    match v
    case Int(_) => IntKind
    case Str(_) => StrKind
    case UniStr(_) => UniStrKind
    case Data(_) => DataKind
  }

  /** Adding one value: the first one makes the whole column, later ones fill their slot. */
  function Put(cols: Columns, key: Key, v: Value, index: nat, total: nat): Columns
    requires index < total || total == 0
  {
    if total == 0 then cols
    else if key in cols && cols[key].kind == KindOf(v) then
      if |cols[key].values| >= total then cols[key := Element(cols[key].kind, cols[key].values[index := Some(v)])] else cols
    else if key in cols || |cols| >= MAX_ELEMENT_NUM then cols
    else cols[key := Element(KindOf(v), seq(total, i => if i == index then Some(v) else None))]
  }

  function Get(cols: Columns, key: Key, kind: Kind, index: nat): Option<Value> {
    if key in cols && cols[key].kind == kind && index < |cols[key].values| then cols[key].values[index] else None
  }

  function GetInt(cols: Columns, key: Key, index: nat): uint {
    match Get(cols, key, IntKind, index)
    case Some(Int(i)) => i
    case _ => 0
  }

  function GetBool(cols: Columns, key: Key, index: nat): bool { GetInt(cols, key, index) != 0 }

  function Truncate(s: string): Str255 { if |s| <= 255 then s else s[..255] }

  function GetStr(cols: Columns, key: Key, index: nat): Str255 {
    match Get(cols, key, StrKind, index)
    case Some(Str(s)) => Truncate(s)
    case _ => ""
  }

  function GetUniStr(cols: Columns, key: Key, index: nat): Str255 {
    match Get(cols, key, UniStrKind, index)
    case Some(UniStr(u)) => Truncate(u)
    case _ => ""
  }

  function Zeros(size: nat): seq<byte> { seq(size, i => 0) }

  /** Data of any other size than the one asked for is ignored; the field then stays zero. */
  function GetData(cols: Columns, key: Key, size: nat, index: nat): (r: seq<byte>)
    ensures |r| == size
  {
    match Get(cols, key, DataKind, index)
    case Some(Data(d)) => if |d| == size then d else Zeros(size)
    case _ => Zeros(size)
  }

  /** An address read back as 32 bits: the marker if it was sent as an IPv6 one. */
  function GetIp32(cols: Columns, c: AddressColumn, index: nat): uint {
    if GetBool(cols, Ips(c, Ipv6Bool), index) then IP6_MARKER else GetInt(cols, Ips(c, Plain), index)
  }

  function GetIndexCount(cols: Columns, key: Key): nat { if key in cols then |cols[key].values| else 0 }

  class Pack {
    var columns: Columns

    constructor ()
      ensures columns == map[]
    {
      columns := map[];
    }

    method AddEx(key: Key, v: Value, index: nat, total: nat)
      requires index < total || total == 0
      modifies this
      ensures columns == Put(old(columns), key, v, index, total)
    {
      if total == 0 {
        return;
      }
      if key in columns && columns[key].kind == KindOf(v) {
        if |columns[key].values| >= total {
          columns := columns[key := Element(columns[key].kind, columns[key].values[index := Some(v)])];
        }
      } else if key !in columns && |columns| < MAX_ELEMENT_NUM {
        columns := columns[key := Element(KindOf(v), seq(total, i => if i == index then Some(v) else None))];
      }
    }
  }

  // ---- One entry ----

  function BoolValue(b: bool): Value { Int(if b then 1 else 0) }

  function IntField(a: Access, c: IntColumn): uint {
    match c
    case Id => a.id
    case Priority => a.priority
    case Protocol => a.protocol
    case SrcPortStart => a.srcPortStart
    case SrcPortEnd => a.srcPortEnd
    case DestPortStart => a.destPortStart
    case DestPortEnd => a.destPortEnd
    case Delay => a.delay
    case Jitter => a.jitter
    case Loss => a.loss
    case UniqueId => a.uniqueId
  }

  function BoolField(a: Access, c: BoolColumn): bool {
    match c
    case Active => a.active
    case Discard => a.discard
    case CheckSrcMac => a.checkSrcMac
    case CheckDstMac => a.checkDstMac
    case CheckTcpState => a.checkTcpState
    case Established => a.established
    case IsIPv6 => a.isIPv6
  }

  function StrField(a: Access, c: StrColumn): Str255 {
    match c
    case SrcUsername => a.srcUsername
    case DestUsername => a.destUsername
    case RedirectUrl => a.redirectUrl
  }

  function MacField(a: Access, c: MacColumn): Mac {
    match c
    case SrcMacAddress => a.srcMacAddress
    case SrcMacMask => a.srcMacMask
    case DstMacAddress => a.dstMacAddress
    case DstMacMask => a.dstMacMask
  }

  function AddressField<T>(a: Addresses<T>, c: AddressColumn): T {
    match c
    case SrcIpAddress => a.srcIp
    case SrcSubnetMask => a.srcSubnetMask
    case DestIpAddress => a.destIp
    case DestSubnetMask => a.destSubnetMask
  }

  /** The IPv4 fields as they are sent. */
  function SentIp4(a: Access): Addresses<uint> { if a.isIPv6 then IP6_ENTRY else a.ipv4 }

  function SentIp6(a: Access): Addresses<Ip6> { if a.isIPv6 then a.ipv6 else NO_IP6 }

  function IpPartValue(ip: uint, part: IpPart): Value {
    match part
    case Ipv6Bool => BoolValue(ip == IP6_MARKER)
    case Ipv6Array => Data(ZERO_IP6)
    case Ipv6ScopeId => Int(0)
    case Plain => Int(ip)
  }

  /** What the entry puts into each column. */
  function Field(a: Access, key: RowKey): Value
  {
    match key
    case Ints(c) => Int(IntField(a, c))
    case Bools(c) => BoolValue(BoolField(a, c))
    case Strs(c) => Str(StrField(a, c))
    case Note => UniStr(a.note)
    case Macs(c) => Data(MacField(a, c))
    case Ips(c, part) => IpPartValue(AddressField(SentIp4(a), c), part)
    case Ip6s(c) => Data(AddressField(SentIp6(a), c))
  }

  function AddressRank(c: AddressColumn): (k: nat)
    ensures k < 4
  {
    match c case SrcIpAddress => 0 case SrcSubnetMask => 1 case DestIpAddress => 2 case DestSubnetMask => 3
  }

  function AddressAt(k: nat): (c: AddressColumn)
    requires k < 4
    ensures AddressRank(c) == k
  {
    match k case 0 => SrcIpAddress case 1 => SrcSubnetMask case 2 => DestIpAddress case _ => DestSubnetMask
  }

  function PartRank(part: IpPart): (k: nat)
    ensures k < 4
  {
    match part case Ipv6Bool => 0 case Ipv6Array => 1 case Ipv6ScopeId => 2 case Plain => 3
  }

  function PartAt(k: nat): (part: IpPart)
    requires k < 4
    ensures PartRank(part) == k
  {
    match k case 0 => Ipv6Bool case 1 => Ipv6Array case 2 => Ipv6ScopeId case _ => Plain
  }

  /** The position of a column in the order in which an entry's columns are written. */
  function Rank(key: RowKey): (k: nat)
    ensures k < FIELDS
  {
    match key
    case Ints(c) => (
      match c case Id => 0 case Priority => 3 case Protocol => 21 case SrcPortStart => 22 case SrcPortEnd => 23
              case DestPortStart => 24 case DestPortEnd => 25 case Delay => 36 case Jitter => 37 case Loss => 38 case UniqueId => 40)
    case Bools(c) => (
      match c case Active => 2 case Discard => 4 case CheckSrcMac => 28 case CheckDstMac => 31 case CheckTcpState => 34
              case Established => 35 case IsIPv6 => 39)
    case Strs(c) => (match c case SrcUsername => 26 case DestUsername => 27 case RedirectUrl => 41)
    case Note => 1
    case Macs(c) => (match c case SrcMacAddress => 29 case SrcMacMask => 30 case DstMacAddress => 32 case DstMacMask => 33)
    case Ips(c, part) => 5 + 4 * AddressRank(c) + PartRank(part)
    case Ip6s(c) => 42 + AddressRank(c)
  }

  function PortOrNameKeyAt(k: nat): (key: RowKey)
    requires 21 <= k < 28
    ensures Rank(key) == k
  {
    match k case 21 => Ints(Protocol) case 22 => Ints(SrcPortStart) case 23 => Ints(SrcPortEnd) case 24 => Ints(DestPortStart)
            case 25 => Ints(DestPortEnd) case 26 => Strs(SrcUsername) case _ => Strs(DestUsername)
  }

  function MacOrTcpKeyAt(k: nat): (key: RowKey)
    requires 28 <= k < 36
    ensures Rank(key) == k
  {
    match k case 28 => Bools(CheckSrcMac) case 29 => Macs(SrcMacAddress) case 30 => Macs(SrcMacMask) case 31 => Bools(CheckDstMac)
            case 32 => Macs(DstMacAddress) case 33 => Macs(DstMacMask) case 34 => Bools(CheckTcpState) case _ => Bools(Established)
  }

  /** The column that is written `k`-th: each one is written, and written once. */
  function KeyAt(k: nat): (key: RowKey)
    requires k < FIELDS
    ensures Rank(key) == k
  {
    if k < 5 then (
      match k case 0 => Ints(Id) case 1 => Note case 2 => Bools(Active) case 3 => Ints(Priority) case _ => Bools(Discard))
    else if k < 21 then Ips(AddressAt((k - 5) / 4), PartAt((k - 5) % 4))
    else if k < 28 then PortOrNameKeyAt(k)
    else if k < 36 then MacOrTcpKeyAt(k)
    else if k < 42 then (
      match k case 36 => Ints(Delay) case 37 => Ints(Jitter) case 38 => Ints(Loss) case 39 => Bools(IsIPv6)
              case 40 => Ints(UniqueId) case _ => Strs(RedirectUrl))
    else Ip6s(AddressAt(k - 42))
  }

  lemma KeyAtRank(key: RowKey)
    ensures KeyAt(Rank(key)) == key
  {
  }

  /** The columns once the first `k` fields of the entry are in. */
  function PutRow(cols: Columns, a: Access, index: nat, total: nat, k: nat): Columns
    requires index < total && k <= FIELDS
  {
    if k == 0 then cols
    else Put(PutRow(cols, a, index, total, k - 1), KeyAt(k - 1), Field(a, KeyAt(k - 1)), index, total)
  }

  /** The next column of the entry. */
  method PackAdd(p: Pack, key: RowKey, v: Value, index: nat, total: nat, ghost was: Columns, ghost a: Access, ghost k: nat)
    requires index < total && k < FIELDS && p.columns == PutRow(was, a, index, total, k)
    requires key == KeyAt(k) && v == Field(a, key)
    modifies p
    ensures p.columns == PutRow(was, a, index, total, k + 1)
  {
    p.AddEx(key, v, index, total);
  }

  method PackAddIp32Ex(p: Pack, c: AddressColumn, ip: uint, index: nat, total: nat, ghost was: Columns, ghost a: Access)
    requires index < total && ip == AddressField(SentIp4(a), c)
    requires p.columns == PutRow(was, a, index, total, 5 + 4 * AddressRank(c))
    modifies p
    ensures p.columns == PutRow(was, a, index, total, 9 + 4 * AddressRank(c))
  {
    hide Put, PutRow;
    ghost var k := 5 + 4 * AddressRank(c);
    IpKeys(c);
    IpFields(a, c);
    hide KeyAt, Field, AddressField, SentIp4, AddressRank;
    PackAdd(p, Ips(c, Ipv6Bool), BoolValue(ip == IP6_MARKER), index, total, was, a, k);
    PackAdd(p, Ips(c, Ipv6Array), Data(ZERO_IP6), index, total, was, a, k + 1);
    PackAdd(p, Ips(c, Ipv6ScopeId), Int(0), index, total, was, a, k + 2);
    PackAdd(p, Ips(c, Plain), Int(ip), index, total, was, a, k + 3);
  }

  lemma IpKeys(c: AddressColumn)
    ensures var k := 5 + 4 * AddressRank(c);
            && KeyAt(k) == Ips(c, Ipv6Bool) && KeyAt(k + 1) == Ips(c, Ipv6Array)
            && KeyAt(k + 2) == Ips(c, Ipv6ScopeId) && KeyAt(k + 3) == Ips(c, Plain)
  {
    KeyAtRank(Ips(c, Ipv6Bool));
    KeyAtRank(Ips(c, Ipv6Array));
    KeyAtRank(Ips(c, Ipv6ScopeId));
    KeyAtRank(Ips(c, Plain));
  }

  lemma IpFields(a: Access, c: AddressColumn)
    ensures var ip := AddressField(SentIp4(a), c);
            && Field(a, Ips(c, Ipv6Bool)) == BoolValue(ip == IP6_MARKER) && Field(a, Ips(c, Ipv6Array)) == Data(ZERO_IP6)
            && Field(a, Ips(c, Ipv6ScopeId)) == Int(0) && Field(a, Ips(c, Plain)) == Int(ip)
  {
  }

  method OutRpcAccessEx(p: Pack, a: Access, index: nat, total: nat)
    requires index < total
    modifies p
    ensures p.columns == PutRow(old(p.columns), a, index, total, FIELDS)
  {
    ghost var was := p.columns;
    OutHead(p, a, index, total, was);
    OutIp4(p, a, index, total, was);
    OutPortsAndNames(p, a, index, total, was);
    OutMacs(p, a, index, total, was);
    OutTcp(p, a, index, total, was);
    OutTail(p, a, index, total, was);
    OutIp6(p, a, index, total, was);
  }

  method OutHead(p: Pack, a: Access, index: nat, total: nat, ghost was: Columns)
    requires index < total && p.columns == PutRow(was, a, index, total, 0)
    modifies p
    ensures p.columns == PutRow(was, a, index, total, 5)
  {
    hide Put;
    PackAdd(p, Ints(Id), Int(a.id), index, total, was, a, 0);
    PackAdd(p, Note, UniStr(a.note), index, total, was, a, 1);
    PackAdd(p, Bools(Active), BoolValue(a.active), index, total, was, a, 2);
    PackAdd(p, Ints(Priority), Int(a.priority), index, total, was, a, 3);
    PackAdd(p, Bools(Discard), BoolValue(a.discard), index, total, was, a, 4);
  }

  method OutIp4(p: Pack, a: Access, index: nat, total: nat, ghost was: Columns)
    requires index < total && p.columns == PutRow(was, a, index, total, 5)
    modifies p
    ensures p.columns == PutRow(was, a, index, total, 21)
  {
    hide Put;
    if a.isIPv6 {
      PackAddIp32Ex(p, SrcIpAddress, IP6_ENTRY_ADDRESS, index, total, was, a);
      PackAddIp32Ex(p, SrcSubnetMask, IP6_ENTRY_MASK, index, total, was, a);
      PackAddIp32Ex(p, DestIpAddress, IP6_ENTRY_ADDRESS, index, total, was, a);
      PackAddIp32Ex(p, DestSubnetMask, IP6_ENTRY_MASK, index, total, was, a);
    } else {
      PackAddIp32Ex(p, SrcIpAddress, a.ipv4.srcIp, index, total, was, a);
      PackAddIp32Ex(p, SrcSubnetMask, a.ipv4.srcSubnetMask, index, total, was, a);
      PackAddIp32Ex(p, DestIpAddress, a.ipv4.destIp, index, total, was, a);
      PackAddIp32Ex(p, DestSubnetMask, a.ipv4.destSubnetMask, index, total, was, a);
    }
  }

  method OutPortsAndNames(p: Pack, a: Access, index: nat, total: nat, ghost was: Columns)
    requires index < total && p.columns == PutRow(was, a, index, total, 21)
    modifies p
    ensures p.columns == PutRow(was, a, index, total, 28)
  {
    hide Put;
    PackAdd(p, Ints(Protocol), Int(a.protocol), index, total, was, a, 21);
    PackAdd(p, Ints(SrcPortStart), Int(a.srcPortStart), index, total, was, a, 22);
    PackAdd(p, Ints(SrcPortEnd), Int(a.srcPortEnd), index, total, was, a, 23);
    PackAdd(p, Ints(DestPortStart), Int(a.destPortStart), index, total, was, a, 24);
    PackAdd(p, Ints(DestPortEnd), Int(a.destPortEnd), index, total, was, a, 25);
    PackAdd(p, Strs(SrcUsername), Str(a.srcUsername), index, total, was, a, 26);
    PackAdd(p, Strs(DestUsername), Str(a.destUsername), index, total, was, a, 27);
  }

  method OutMacs(p: Pack, a: Access, index: nat, total: nat, ghost was: Columns)
    requires index < total && p.columns == PutRow(was, a, index, total, 28)
    modifies p
    ensures p.columns == PutRow(was, a, index, total, 34)
  {
    hide Put;
    PackAdd(p, Bools(CheckSrcMac), BoolValue(a.checkSrcMac), index, total, was, a, 28);
    PackAdd(p, Macs(SrcMacAddress), Data(a.srcMacAddress), index, total, was, a, 29);
    PackAdd(p, Macs(SrcMacMask), Data(a.srcMacMask), index, total, was, a, 30);
    PackAdd(p, Bools(CheckDstMac), BoolValue(a.checkDstMac), index, total, was, a, 31);
    PackAdd(p, Macs(DstMacAddress), Data(a.dstMacAddress), index, total, was, a, 32);
    PackAdd(p, Macs(DstMacMask), Data(a.dstMacMask), index, total, was, a, 33);
  }

  method OutTcp(p: Pack, a: Access, index: nat, total: nat, ghost was: Columns)
    requires index < total && p.columns == PutRow(was, a, index, total, 34)
    modifies p
    ensures p.columns == PutRow(was, a, index, total, 36)
  {
    hide Put;
    PackAdd(p, Bools(CheckTcpState), BoolValue(a.checkTcpState), index, total, was, a, 34);
    PackAdd(p, Bools(Established), BoolValue(a.established), index, total, was, a, 35);
  }

  method OutTail(p: Pack, a: Access, index: nat, total: nat, ghost was: Columns)
    requires index < total && p.columns == PutRow(was, a, index, total, 36)
    modifies p
    ensures p.columns == PutRow(was, a, index, total, 42)
  {
    hide Put;
    PackAdd(p, Ints(Delay), Int(a.delay), index, total, was, a, 36);
    PackAdd(p, Ints(Jitter), Int(a.jitter), index, total, was, a, 37);
    PackAdd(p, Ints(Loss), Int(a.loss), index, total, was, a, 38);
    PackAdd(p, Bools(IsIPv6), BoolValue(a.isIPv6), index, total, was, a, 39);
    PackAdd(p, Ints(UniqueId), Int(a.uniqueId), index, total, was, a, 40);
    PackAdd(p, Strs(RedirectUrl), Str(a.redirectUrl), index, total, was, a, 41);
  }

  method OutIp6(p: Pack, a: Access, index: nat, total: nat, ghost was: Columns)
    requires index < total && p.columns == PutRow(was, a, index, total, 42)
    modifies p
    ensures p.columns == PutRow(was, a, index, total, 46)
  {
    hide Put;
    if a.isIPv6 {
      PackAdd(p, Ip6s(SrcIpAddress), Data(a.ipv6.srcIp), index, total, was, a, 42);
      PackAdd(p, Ip6s(SrcSubnetMask), Data(a.ipv6.srcSubnetMask), index, total, was, a, 43);
      PackAdd(p, Ip6s(DestIpAddress), Data(a.ipv6.destIp), index, total, was, a, 44);
      PackAdd(p, Ip6s(DestSubnetMask), Data(a.ipv6.destSubnetMask), index, total, was, a, 45);
    } else {
      PackAdd(p, Ip6s(SrcIpAddress), Data(ZERO_IP6), index, total, was, a, 42);
      PackAdd(p, Ip6s(SrcSubnetMask), Data(ZERO_IP6), index, total, was, a, 43);
      PackAdd(p, Ip6s(DestIpAddress), Data(ZERO_IP6), index, total, was, a, 44);
      PackAdd(p, Ip6s(DestSubnetMask), Data(ZERO_IP6), index, total, was, a, 45);
    }
  }

  function GetIp4s(cols: Columns, index: nat): Addresses<uint> {
    Addresses(GetIp32(cols, SrcIpAddress, index), GetIp32(cols, SrcSubnetMask, index),
              GetIp32(cols, DestIpAddress, index), GetIp32(cols, DestSubnetMask, index))
  }

  /** The IPv6 fields are read only for an entry that says it is one. */
  function GetIp6s(cols: Columns, index: nat): Addresses<Ip6> {
    if GetBool(cols, Bools(IsIPv6), index) then
      Addresses(GetData(cols, Ip6s(SrcIpAddress), 16, index), GetData(cols, Ip6s(SrcSubnetMask), 16, index),
                GetData(cols, Ip6s(DestIpAddress), 16, index), GetData(cols, Ip6s(DestSubnetMask), 16, index))
    else NO_IP6
  }

  function GetRow(cols: Columns, index: nat): Access {
    Access(
      GetInt(cols, Ints(Id), index), GetUniStr(cols, Note, index), GetBool(cols, Bools(Active), index),
      GetInt(cols, Ints(Priority), index), GetBool(cols, Bools(Discard), index),
      GetIp4s(cols, index),
      GetInt(cols, Ints(Protocol), index), GetInt(cols, Ints(SrcPortStart), index), GetInt(cols, Ints(SrcPortEnd), index),
      GetInt(cols, Ints(DestPortStart), index), GetInt(cols, Ints(DestPortEnd), index),
      GetStr(cols, Strs(SrcUsername), index), GetStr(cols, Strs(DestUsername), index),
      GetBool(cols, Bools(CheckSrcMac), index),
      GetData(cols, Macs(SrcMacAddress), 6, index), GetData(cols, Macs(SrcMacMask), 6, index),
      GetBool(cols, Bools(CheckDstMac), index),
      GetData(cols, Macs(DstMacAddress), 6, index), GetData(cols, Macs(DstMacMask), 6, index),
      GetBool(cols, Bools(CheckTcpState), index), GetBool(cols, Bools(Established), index),
      GetInt(cols, Ints(Delay), index), GetInt(cols, Ints(Jitter), index), GetInt(cols, Ints(Loss), index),
      GetStr(cols, Strs(RedirectUrl), index), GetBool(cols, Bools(IsIPv6), index),
      GetIp6s(cols, index),
      GetInt(cols, Ints(UniqueId), index), NOTHING_UNSENT)
  }

  // ---- Whole lists ----

  /** The list as the RPC structure holds it. */
  datatype EnumAccessList = EnumAccessList(hubName: Str255, accesses: seq<Access>)

  function PutRows(cols: Columns, rows: seq<Access>, n: nat): Columns
    requires n <= |rows|
  {
    if n == 0 then cols else PutRow(PutRows(cols, rows, n - 1), rows[n - 1], n - 1, |rows|, FIELDS)
  }

  function Encode(t: EnumAccessList): Columns {
    PutRows(Put(map[], HubName, Str(t.hubName), 0, 1), t.accesses, |t.accesses|)
  }

  function Decode(cols: Columns): EnumAccessList {
    EnumAccessList(GetStr(cols, HubName, 0), seq(GetIndexCount(cols, Ints(Protocol)), i requires 0 <= i => GetRow(cols, i)))
  }

  method OutRpcEnumAccessList(p: Pack, hubName: Str255, accesses: array<Access>)
    requires p.columns == map[]
    modifies p
    ensures p.columns == Encode(EnumAccessList(hubName, accesses[..]))
  {
    hide PutRow, Put;
    p.AddEx(HubName, Str(hubName), 0, 1);
    ghost var start := p.columns;
    for i := 0 to accesses.Length
      invariant p.columns == PutRows(start, accesses[..], i)
    {
      OutRpcAccessEx(p, accesses[i], i, accesses.Length);
    }
  }

  method InRpcEnumAccessList(p: Pack) returns (hubName: Str255, accesses: array<Access>)
    ensures fresh(accesses)
    ensures EnumAccessList(hubName, accesses[..]) == Decode(p.columns)
  {
    hide GetRow, GetStr;
    hubName := GetStr(p.columns, HubName, 0);
    var n := GetIndexCount(p.columns, Ints(Protocol));
    accesses := new Access[n](i => GetRow(map[], i));
    for i := 0 to n
      invariant accesses.Length == n
      invariant forall j | 0 <= j < i :: accesses[j] == GetRow(p.columns, j)
    {
      accesses[i] := GetRow(p.columns, i);
    }
  }

  // ---- The round trip ----

  /** The column of `key` when the first `n` rows have filled it. */
  function Filled(rows: seq<Access>, key: RowKey, n: nat): Element
    requires 0 < n <= |rows|
  {
    Element(KindOf(Field(rows[0], key)), seq(|rows|, i requires 0 <= i < |rows| => if i < n then Some(Field(rows[i], key)) else None))
  }

  ghost predicate ColumnHolds(cols: Columns, rows: seq<Access>, key: RowKey, n: nat)
    requires n <= |rows|
  {
    if n == 0 then key !in cols else key in cols && cols[key] == Filled(rows, key, n)
  }

  /** The first `n` rows are in, and the first `k` fields of the next one. */
  ghost predicate Holds(cols: Columns, rows: seq<Access>, hub: Element, n: nat, k: nat)
    requires n <= |rows| && (k > 0 ==> n < |rows|)
  {
    && HubName in cols && cols[HubName] == hub
    && |cols| <= 1 + (if n > 0 then FIELDS else k)
    && forall key: RowKey :: ColumnHolds(cols, rows, key, if Rank(key) < k then n + 1 else n)
  }

  lemma ColumnOf(cols: Columns, rows: seq<Access>, hub: Element, n: nat, key: RowKey)
    requires n <= |rows| && Holds(cols, rows, hub, n, 0)
    ensures ColumnHolds(cols, rows, key, n)
  {
    assert Rank(key) >= 0;
  }

  lemma SameKind(a: Access, b: Access, key: RowKey)
    ensures KindOf(Field(a, key)) == KindOf(Field(b, key))
  {
  }

  lemma PutFillsColumn(cols: Columns, rows: seq<Access>, key: RowKey, n: nat)
    requires n < |rows| && |cols| < MAX_ELEMENT_NUM && ColumnHolds(cols, rows, key, n)
    ensures var after := Put(cols, key, Field(rows[n], key), n, |rows|);
            && ColumnHolds(after, rows, key, n + 1)
            && |after| <= |cols| + (if n == 0 then 1 else 0)
            && (forall other | other != key :: other in cols <==> other in after)
            && (forall other | other != key && other in cols :: after[other] == cols[other])
  {
    SameKind(rows[0], rows[n], key);
    hide Field;
    var after := Put(cols, key, Field(rows[n], key), n, |rows|);
    if n > 0 {
      assert after.Keys == cols.Keys;
    }
  }

  lemma PutKeepsHolds(cols: Columns, rows: seq<Access>, hub: Element, n: nat, k: nat)
    requires n < |rows| && k < FIELDS && Holds(cols, rows, hub, n, k)
    ensures Holds(Put(cols, KeyAt(k), Field(rows[n], KeyAt(k)), n, |rows|), rows, hub, n, k + 1)
  {
    var key := KeyAt(k);
    PutFillsColumn(cols, rows, key, n);
    hide Field, Rank, KeyAt;
    var after := Put(cols, key, Field(rows[n], key), n, |rows|);
    forall other: RowKey ensures ColumnHolds(after, rows, other, if Rank(other) < k + 1 then n + 1 else n) {
      KeyAtRank(other);
    }
  }

  lemma {:induction false} PutRowKeepsHolds(cols: Columns, rows: seq<Access>, hub: Element, n: nat, k: nat)
    requires n < |rows| && k <= FIELDS && Holds(cols, rows, hub, n, 0)
    ensures Holds(PutRow(cols, rows[n], n, |rows|, k), rows, hub, n, k)
  {
    if k > 0 {
      PutRowKeepsHolds(cols, rows, hub, n, k - 1);
      PutKeepsHolds(PutRow(cols, rows[n], n, |rows|, k - 1), rows, hub, n, k - 1);
    }
  }

  lemma {:induction false} PutRowsHolds(cols: Columns, rows: seq<Access>, hub: Element, n: nat)
    requires n <= |rows| && Holds(cols, rows, hub, 0, 0)
    ensures Holds(PutRows(cols, rows, n), rows, hub, n, 0)
  {
    hide Put, PutRow, KeyAt, Rank, ColumnHolds;
    if n > 0 {
      PutRowsHolds(cols, rows, hub, n - 1);
      PutRowKeepsHolds(PutRows(cols, rows, n - 1), rows, hub, n - 1, FIELDS);
    }
  }

  lemma EncodeHolds(t: EnumAccessList)
    ensures Holds(Encode(t), t.accesses, Element(StrKind, [Some(Str(t.hubName))]), |t.accesses|, 0)
  {
    hide PutRows, KeyAt, Rank;
    var start := Put(map[], HubName, Str(t.hubName), 0, 1);
    assert start[HubName].values == [Some(Str(t.hubName))];
    assert start == map[HubName := Element(StrKind, [Some(Str(t.hubName))])];
    PutRowsHolds(start, t.accesses, Element(StrKind, [Some(Str(t.hubName))]), |t.accesses|);
  }

  /** Every field of a row is read back as it was sent. */
  lemma ReadBack(cols: Columns, rows: seq<Access>, hub: Element, i: nat, key: RowKey, kind: Kind)
    requires i < |rows| && Holds(cols, rows, hub, |rows|, 0)
    ensures Get(cols, key, kind, i) == if kind == KindOf(Field(rows[i], key)) then Some(Field(rows[i], key)) else None
  {
    SameKind(rows[0], rows[i], key);
    ColumnOf(cols, rows, hub, |rows|, key);
  }

  lemma ScalarsComeBack(cols: Columns, rows: seq<Access>, hub: Element, i: nat)
    requires i < |rows| && Holds(cols, rows, hub, |rows|, 0)
    ensures forall c :: GetInt(cols, Ints(c), i) == IntField(rows[i], c)
    ensures forall c :: GetBool(cols, Bools(c), i) == BoolField(rows[i], c)
  {
    forall c ensures GetInt(cols, Ints(c), i) == IntField(rows[i], c) {
      ReadBack(cols, rows, hub, i, Ints(c), IntKind);
    }
    forall c ensures GetBool(cols, Bools(c), i) == BoolField(rows[i], c) {
      ReadBack(cols, rows, hub, i, Bools(c), IntKind);
    }
  }

  lemma TextsComeBack(cols: Columns, rows: seq<Access>, hub: Element, i: nat)
    requires i < |rows| && Holds(cols, rows, hub, |rows|, 0)
    ensures forall c :: GetStr(cols, Strs(c), i) == StrField(rows[i], c)
    ensures GetUniStr(cols, Note, i) == rows[i].note
    ensures forall c :: GetData(cols, Macs(c), 6, i) == MacField(rows[i], c)
  {
    forall c ensures GetStr(cols, Strs(c), i) == StrField(rows[i], c) {
      ReadBack(cols, rows, hub, i, Strs(c), StrKind);
    }
    ReadBack(cols, rows, hub, i, Note, UniStrKind);
    forall c ensures GetData(cols, Macs(c), 6, i) == MacField(rows[i], c) {
      ReadBack(cols, rows, hub, i, Macs(c), DataKind);
    }
  }

  /** Even the marker address survives, though it travels as an IPv6 address. */
  lemma AddressesComeBack(cols: Columns, rows: seq<Access>, hub: Element, i: nat)
    requires i < |rows| && Holds(cols, rows, hub, |rows|, 0)
    ensures forall c :: GetIp32(cols, c, i) == AddressField(SentIp4(rows[i]), c)
    ensures forall c :: GetData(cols, Ip6s(c), 16, i) == AddressField(SentIp6(rows[i]), c)
  {
    forall c ensures GetIp32(cols, c, i) == AddressField(SentIp4(rows[i]), c) {
      ReadBack(cols, rows, hub, i, Ips(c, Ipv6Bool), IntKind);
      ReadBack(cols, rows, hub, i, Ips(c, Plain), IntKind);
    }
    forall c ensures GetData(cols, Ip6s(c), 16, i) == AddressField(SentIp6(rows[i]), c) {
      ReadBack(cols, rows, hub, i, Ip6s(c), DataKind);
    }
  }

  lemma RowComesBackCanonical(cols: Columns, rows: seq<Access>, hub: Element, i: nat)
    requires i < |rows| && Holds(cols, rows, hub, |rows|, 0)
    ensures GetRow(cols, i) == Canonical(rows[i])
  {
    ScalarsComeBack(cols, rows, hub, i);
    TextsComeBack(cols, rows, hub, i);
    AddressesComeBack(cols, rows, hub, i);
    assert GetBool(cols, Bools(IsIPv6), i) == rows[i].isIPv6;
    AddressesOfEqualFields(cols, rows[i], i);
    RowOfEqualFields(cols, rows[i], i);
  }

  lemma AddressesOfEqualFields(cols: Columns, a: Access, i: nat)
    requires GetBool(cols, Bools(IsIPv6), i) == a.isIPv6
    requires forall c :: GetIp32(cols, c, i) == AddressField(SentIp4(a), c)
    requires forall c :: GetData(cols, Ip6s(c), 16, i) == AddressField(SentIp6(a), c)
    ensures GetIp4s(cols, i) == SentIp4(a) && GetIp6s(cols, i) == SentIp6(a)
  {
    hide GetIp32, GetData, GetBool;
  }

  lemma RowOfEqualFields(cols: Columns, a: Access, i: nat)
    requires forall c :: GetInt(cols, Ints(c), i) == IntField(a, c)
    requires forall c :: GetBool(cols, Bools(c), i) == BoolField(a, c)
    requires forall c :: GetStr(cols, Strs(c), i) == StrField(a, c)
    requires GetUniStr(cols, Note, i) == a.note
    requires forall c :: GetData(cols, Macs(c), 6, i) == MacField(a, c)
    requires GetIp4s(cols, i) == SentIp4(a) && GetIp6s(cols, i) == SentIp6(a)
    ensures GetRow(cols, i) == Canonical(a)
  {
    hide GetInt, GetBool, GetStr, GetUniStr, GetData, GetIp4s, GetIp6s;
  }

  /** Access lists of any length: decoding what was encoded gives each entry in canonical form, in
      order, and the number of entries from the length of one column. */
  lemma DecodeAfterEncode(t: EnumAccessList)
    ensures Decode(Encode(t)) == EnumAccessList(t.hubName, seq(|t.accesses|, i requires 0 <= i < |t.accesses| => Canonical(t.accesses[i])))
  {
    EncodeHolds(t);
    hide GetRow, Canonical, Encode;
    var cols := Encode(t);
    var rows := t.accesses;
    var hub := Element(StrKind, [Some(Str(t.hubName))]);
    ColumnOf(cols, rows, hub, |rows|, Ints(Protocol));
    assert GetIndexCount(cols, Ints(Protocol)) == |rows|;
    forall i: nat | i < |rows| ensures GetRow(cols, i) == Canonical(rows[i]) {
      RowComesBackCanonical(cols, rows, hub, i);
    }
  }

  /** A second trip changes nothing; and the first one changes nothing exactly for lists that hold
      nothing outside of what is sent. */
  lemma SecondTripIsIdentity(t: EnumAccessList)
    ensures var once := Decode(Encode(t)); Decode(Encode(once)) == once
    ensures Decode(Encode(t)) == t <==>
            forall i | 0 <= i < |t.accesses| ::
              var a := t.accesses[i];
              a.unsent == NOTHING_UNSENT && if a.isIPv6 then a.ipv4 == IP6_ENTRY else a.ipv6 == NO_IP6
  {
    DecodeAfterEncode(t);
    var once := Decode(Encode(t));
    DecodeAfterEncode(once);
    hide Decode, Encode;
    assert forall i | 0 <= i < |t.accesses| :: Canonical(Canonical(t.accesses[i])) == Canonical(t.accesses[i]);
    if Decode(Encode(t)) == t {
      forall i | 0 <= i < |t.accesses| ensures Canonical(t.accesses[i]) == t.accesses[i] {
        assert once.accesses[i] == t.accesses[i];
      }
    }
  }

  // ---- What is where ----

  /** The value that the encoding has in the `i`-th slot of a column. */
  function Slot(t: EnumAccessList, key: Key, kind: Kind, i: nat): Option<Value> { Get(Encode(t), key, kind, i) }

  lemma SlotHolds(t: EnumAccessList, i: nat, key: RowKey)
    requires i < |t.accesses|
    ensures Slot(t, key, KindOf(Field(t.accesses[i], key)), i) == Some(Field(t.accesses[i], key))
  {
    EncodeHolds(t);
    hide *;
    ReadBack(Encode(t), t.accesses, Element(StrKind, [Some(Str(t.hubName))]), i, key, KindOf(Field(t.accesses[i], key)));
    SlotIs(t, key, KindOf(Field(t.accesses[i], key)), i);
  }

  lemma SlotIs(t: EnumAccessList, key: Key, kind: Kind, i: nat)
    ensures Slot(t, key, kind, i) == Get(Encode(t), key, kind, i)
  {
  }

  /** Every number is sent in the column of its own name. */
  lemma NumbersAreInTheirColumns(t: EnumAccessList, i: nat)
    requires i < |t.accesses|
    ensures var a := t.accesses[i];
            && Slot(t, Ints(Id), IntKind, i) == Some(Int(a.id)) && Slot(t, Ints(Priority), IntKind, i) == Some(Int(a.priority))
            && Slot(t, Ints(Protocol), IntKind, i) == Some(Int(a.protocol)) && Slot(t, Ints(SrcPortStart), IntKind, i) == Some(Int(a.srcPortStart))
            && Slot(t, Ints(SrcPortEnd), IntKind, i) == Some(Int(a.srcPortEnd)) && Slot(t, Ints(DestPortStart), IntKind, i) == Some(Int(a.destPortStart))
            && Slot(t, Ints(DestPortEnd), IntKind, i) == Some(Int(a.destPortEnd)) && Slot(t, Ints(Delay), IntKind, i) == Some(Int(a.delay))
            && Slot(t, Ints(Jitter), IntKind, i) == Some(Int(a.jitter)) && Slot(t, Ints(Loss), IntKind, i) == Some(Int(a.loss))
            && Slot(t, Ints(UniqueId), IntKind, i) == Some(Int(a.uniqueId))
  {
    hide Slot;
    forall c: IntColumn ensures Slot(t, Ints(c), IntKind, i) == Some(Int(IntField(t.accesses[i], c))) {
      SlotHolds(t, i, Ints(c));
    }
  }

  /** So is every flag, as 0 or 1. */
  lemma FlagsAreInTheirColumns(t: EnumAccessList, i: nat)
    requires i < |t.accesses|
    ensures var a := t.accesses[i];
            && Slot(t, Bools(Active), IntKind, i) == Some(Int(if a.active then 1 else 0))
            && Slot(t, Bools(Discard), IntKind, i) == Some(Int(if a.discard then 1 else 0))
            && Slot(t, Bools(CheckSrcMac), IntKind, i) == Some(Int(if a.checkSrcMac then 1 else 0))
            && Slot(t, Bools(CheckDstMac), IntKind, i) == Some(Int(if a.checkDstMac then 1 else 0))
            && Slot(t, Bools(CheckTcpState), IntKind, i) == Some(Int(if a.checkTcpState then 1 else 0))
            && Slot(t, Bools(Established), IntKind, i) == Some(Int(if a.established then 1 else 0))
            && Slot(t, Bools(IsIPv6), IntKind, i) == Some(Int(if a.isIPv6 then 1 else 0))
  {
    hide Slot;
    forall c: BoolColumn ensures Slot(t, Bools(c), IntKind, i) == Some(BoolValue(BoolField(t.accesses[i], c))) {
      SlotHolds(t, i, Bools(c));
    }
  }

  /** And every text and MAC address. */
  lemma TextsAreInTheirColumns(t: EnumAccessList, i: nat)
    requires i < |t.accesses|
    ensures var a := t.accesses[i];
            && Slot(t, Note, UniStrKind, i) == Some(UniStr(a.note)) && Slot(t, Strs(SrcUsername), StrKind, i) == Some(Str(a.srcUsername))
            && Slot(t, Strs(DestUsername), StrKind, i) == Some(Str(a.destUsername))
            && Slot(t, Strs(RedirectUrl), StrKind, i) == Some(Str(a.redirectUrl))
            && Slot(t, Macs(SrcMacAddress), DataKind, i) == Some(Data(a.srcMacAddress))
            && Slot(t, Macs(SrcMacMask), DataKind, i) == Some(Data(a.srcMacMask))
            && Slot(t, Macs(DstMacAddress), DataKind, i) == Some(Data(a.dstMacAddress))
            && Slot(t, Macs(DstMacMask), DataKind, i) == Some(Data(a.dstMacMask))
  {
    hide Slot;
    SlotHolds(t, i, Note);
    forall c: StrColumn ensures Slot(t, Strs(c), StrKind, i) == Some(Str(StrField(t.accesses[i], c))) {
      SlotHolds(t, i, Strs(c));
    }
    forall c: MacColumn ensures Slot(t, Macs(c), DataKind, i) == Some(Data(MacField(t.accesses[i], c))) {
      SlotHolds(t, i, Macs(c));
    }
  }

  /** The addresses of the entry's family are in the columns of their names; those of the other family are sent
      as the stand-ins. */
  lemma AddressesAreInTheirColumns(t: EnumAccessList, i: nat)
    requires i < |t.accesses|
    ensures var a := t.accesses[i];
            var v4 := if a.isIPv6 then Addresses(0xFDFF_FFDF, 0xFFFF_FFFF, 0xFDFF_FFDF, 0xFFFF_FFFF) else a.ipv4;
            && Slot(t, Ips(SrcIpAddress, Plain), IntKind, i) == Some(Int(v4.srcIp))
            && Slot(t, Ips(SrcSubnetMask, Plain), IntKind, i) == Some(Int(v4.srcSubnetMask))
            && Slot(t, Ips(DestIpAddress, Plain), IntKind, i) == Some(Int(v4.destIp))
            && Slot(t, Ips(DestSubnetMask, Plain), IntKind, i) == Some(Int(v4.destSubnetMask))
    ensures var a := t.accesses[i];
            var zero := seq(16, i => 0 as byte);
            && Slot(t, Ip6s(SrcIpAddress), DataKind, i) == Some(Data(if a.isIPv6 then a.ipv6.srcIp else zero))
            && Slot(t, Ip6s(SrcSubnetMask), DataKind, i) == Some(Data(if a.isIPv6 then a.ipv6.srcSubnetMask else zero))
            && Slot(t, Ip6s(DestIpAddress), DataKind, i) == Some(Data(if a.isIPv6 then a.ipv6.destIp else zero))
            && Slot(t, Ip6s(DestSubnetMask), DataKind, i) == Some(Data(if a.isIPv6 then a.ipv6.destSubnetMask else zero))
  {
    hide Slot;
    forall c: AddressColumn
      ensures Slot(t, Ips(c, Plain), IntKind, i) == Some(Int(AddressField(SentIp4(t.accesses[i]), c)))
      ensures Slot(t, Ip6s(c), DataKind, i) == Some(Data(AddressField(SentIp6(t.accesses[i]), c)))
    {
      SlotHolds(t, i, Ips(c, Plain));
      SlotHolds(t, i, Ip6s(c));
    }
    assert ZERO_IP6 == seq(16, i => 0 as byte);
  }


  /** What a reader makes of columns from anywhere: a number is a flag unless it is zero, texts are cut to what
      fits, data counts only at its full size, and what is missing or of another kind reads as zero or empty. */
  lemma ForeignColumnsAreRead(cols: Columns, key: Key, size: nat, i: nat)
    ensures match Get(cols, key, IntKind, i)
            case Some(Int(n)) => GetInt(cols, key, i) == n && (GetBool(cols, key, i) <==> n > 0)
            case _ => GetInt(cols, key, i) == 0 && !GetBool(cols, key, i)
    ensures match Get(cols, key, StrKind, i)
            case Some(Str(s)) =>
              var r := GetStr(cols, key, i); r <= s && (if |s| <= 255 then r == s else |r| == 255)
            case _ => GetStr(cols, key, i) == ""
    ensures match Get(cols, key, UniStrKind, i)
            case Some(UniStr(s)) =>
              var r := GetUniStr(cols, key, i); r <= s && (if |s| <= 255 then r == s else |r| == 255)
            case _ => GetUniStr(cols, key, i) == ""
    ensures match Get(cols, key, DataKind, i)
            case Some(Data(d)) => if |d| == size then GetData(cols, key, size, i) == d else GetData(cols, key, size, i) == seq(size, k => 0)
            case _ => GetData(cols, key, size, i) == seq(size, k => 0)
  {
    hide Get;
    assert Zeros(size) == seq(size, k => 0);
  }


  /** When a value is taken: into a new column if there is room for one more, and into an old one if that is of
      its kind and long enough. It is then read back, and no other slot has changed; else nothing has. */
  lemma AddedIsRead(cols: Columns, key: Key, v: Value, index: nat, total: nat)
    requires index < total
    ensures var after := Put(cols, key, v, index, total);
            var fits := if key in cols then cols[key].kind == KindOf(v) && |cols[key].values| >= total else |cols| < MAX_ELEMENT_NUM;
            && (!fits ==> after == cols)
            && (fits ==>
                  && Get(after, key, KindOf(v), index) == Some(v)
                  && GetIndexCount(after, key) == (if key in cols then |cols[key].values| else total)
                  && (forall i: nat, kind | i != index || kind != KindOf(v) :: Get(after, key, kind, i) == Get(cols, key, kind, i))
                  && forall k: Key | k != key :: (k in after <==> k in cols) && (k in cols ==> after[k] == cols[k]))
  {
  }
}
