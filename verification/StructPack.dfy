/** Structs as arrays: members are read from and written to aligned memory, and 16-bit ones travel as 32-bit ones. */
module StructPack {
  import opened Values
  import opened Alignment

  type Byte = x: int | 0 <= x < 256

  /** The member types of the model; `Unsupported` is any type the switch does not list. */
  datatype Kind =
    | UCharT | CharT | UIntT | IntT | UInt64T | Int64T | FloatT | DoubleT | BoolT | UInt16T | Int16T
    | Unsupported

  /** A value in the array: its type and its number; TRUE is 1, and a float or double is its bit pattern. */
  datatype Item = Item(kind: Kind, n: int)

  /** ALIGNOF_*: log2 of each type's alignment on the platform. */
  datatype Abi = Abi(shift: Kind -> nat) {
    function Align(kind: Kind): nat {
      Pow2(shift(kind))
    }

    /** Alignments and struct sizes stay within the address space. */
    ghost predicate Fits(size: nat) {
      forall kind :: shift(kind) <= 64 && size + Align(kind) <= WORD
    }
  }

  /** sizeof */
  function Size(kind: Kind): nat {
    match kind
    case UCharT => 1
    case CharT => 1
    case UInt16T => 2
    case Int16T => 2
    case UIntT => 4
    case IntT => 4
    case BoolT => 4
    case FloatT => 4
    case DoubleT => 8
    case UInt64T => 8
    case Int64T => 8
    case Unsupported => 0
  }

  predicate Signed(kind: Kind) {
    kind == CharT || kind == Int16T || kind == IntT || kind == Int64T
  }

  /** How many bit patterns a type has. */
  function Range(kind: Kind): (r: nat)
    ensures r >= 1
  {
    match Size(kind)
    case 0 => 1
    case 1 => 0x100
    case 2 => 0x1_0000
    case 4 => 0x1_0000_0000
    case _ => 0x1_0000_0000_0000_0000
  }

  /* ---- Bytes, least significant first ---- */

  function Number(bytes: seq<Byte>): nat {
    if bytes == [] then 0 else bytes[0] + 256 * Number(bytes[1..])
  }

  function Bytes(n: nat, size: nat): (bytes: seq<Byte>)
    ensures |bytes| == size
    decreases size
  {
    if size == 0 then [] else [n % 256] + Bytes(n / 256, size - 1)
  }

  lemma {:induction false} BytesOfNumber(bytes: seq<Byte>)
    ensures Bytes(Number(bytes), |bytes|) == bytes
    decreases |bytes|
  {
    if bytes != [] {
      BytesOfNumber(bytes[1..]);
      assert Number(bytes) == bytes[0] + 256 * Number(bytes[1..]);
      assert Number(bytes) / 256 == Number(bytes[1..]) && Number(bytes) % 256 == bytes[0];
    }
  }

  lemma NumberBelow(kind: Kind, bytes: seq<Byte>)
    requires |bytes| == Size(kind)
    ensures Number(bytes) < Range(kind)
  {
    Below(bytes);
    Powers();
  }

  function Pow256(n: nat): nat {
    if n == 0 then 1 else 256 * Pow256(n - 1)
  }

  lemma {:induction false} Below(bytes: seq<Byte>)
    ensures Number(bytes) < Pow256(|bytes|)
    decreases |bytes|
  {
    if bytes != [] { Below(bytes[1..]); }
  }

  lemma Powers()
    ensures Pow256(0) == 1 && Pow256(1) == 0x100 && Pow256(2) == 0x1_0000
    ensures Pow256(4) == 0x1_0000_0000 && Pow256(8) == 0x1_0000_0000_0000_0000
  {
    assert Pow256(4) == 256 * Pow256(3) && Pow256(3) == 256 * Pow256(2);
    assert Pow256(8) == 256 * Pow256(7) && Pow256(7) == 256 * Pow256(6) && Pow256(6) == 256 * Pow256(5);
  }

  /** Reading a member and setting the value from it; a boolean becomes TRUE or FALSE. */
  function Load(kind: Kind, bytes: seq<Byte>): Item {
    var u := Number(bytes);
    if kind == BoolT then Item(BoolT, if u != 0 then 1 else 0)
    else if Signed(kind) && u >= Range(kind) / 2 then Item(kind, u - Range(kind))
    else Item(kind, u)
  }

  /**
   The number that a member's bytes denote on the platform, type by type: as many bytes as the type has, the number in
   the type's range and equal to the bytes' modulo that many bits; a boolean is 0 or 1, a float or double its bits.
   */
  ghost predicate Denotes(kind: Kind, n: int, bytes: seq<Byte>) {
    match kind
    case CharT => |bytes| == 1 && -0x80 <= n < 0x80 && (n - Number(bytes)) % 0x100 == 0
    case UCharT => |bytes| == 1 && 0 <= n < 0x100 && n == Number(bytes)
    case Int16T => |bytes| == 2 && -0x8000 <= n < 0x8000 && (n - Number(bytes)) % 0x1_0000 == 0
    case UInt16T => |bytes| == 2 && 0 <= n < 0x1_0000 && n == Number(bytes)
    case IntT => |bytes| == 4 && -0x8000_0000 <= n < 0x8000_0000 && (n - Number(bytes)) % 0x1_0000_0000 == 0
    case UIntT => |bytes| == 4 && 0 <= n < 0x1_0000_0000 && n == Number(bytes)
    case Int64T =>
      && |bytes| == 8 && -0x8000_0000_0000_0000 <= n < 0x8000_0000_0000_0000
      && (n - Number(bytes)) % 0x1_0000_0000_0000_0000 == 0
    case UInt64T => |bytes| == 8 && 0 <= n < 0x1_0000_0000_0000_0000 && n == Number(bytes)
    case BoolT => |bytes| == 4 && 0 <= n <= 1 && (n == 0 <==> forall i :: 0 <= i < 4 ==> bytes[i] == 0)
    case FloatT => |bytes| == 4 && 0 <= n < 0x1_0000_0000 && n == Number(bytes)
    case DoubleT => |bytes| == 8 && 0 <= n < 0x1_0000_0000_0000_0000 && n == Number(bytes)
    case Unsupported => false
  }

  lemma {:induction false} NumberZero(bytes: seq<Byte>)
    ensures Number(bytes) == 0 <==> forall i :: 0 <= i < |bytes| ==> bytes[i] == 0
    decreases |bytes|
  {
    if bytes != [] {
      NumberZero(bytes[1..]);
      assert forall i :: 0 <= i < |bytes| - 1 ==> bytes[1..][i] == bytes[i + 1];
      if Number(bytes) == 0 {
        forall i | 0 <= i < |bytes| ensures bytes[i] == 0 { if i > 0 { assert bytes[1..][i - 1] == 0; } }
      }
    }
  }

  lemma LoadDenotes(kind: Kind, bytes: seq<Byte>)
    requires kind != Unsupported && |bytes| == Size(kind)
    ensures Load(kind, bytes).kind == kind && Denotes(kind, Load(kind, bytes).n, bytes)
  {
    NumberBelow(kind, bytes);
    NumberZero(bytes);
  }

  /** Assigning a number to a member, modulo its size. */
  function Store(kind: Kind, n: int): (bytes: seq<Byte>)
    ensures |bytes| == Size(kind)
  {
    Bytes(n % Range(kind), Size(kind))
  }

  /** What is loaded and stored again comes back, for booleans only if it was TRUE or FALSE to begin with. */
  lemma LoadStore(kind: Kind, bytes: seq<Byte>)
    requires |bytes| == Size(kind)
    ensures Store(kind, Load(kind, bytes).n) == bytes <==> (kind == BoolT ==> Number(bytes) <= 1)
  {
    BytesOfNumber(bytes);
    if kind == BoolT { StoreBool(bytes); } else { LoadMod(kind, bytes); }
  }

  /** A member that is assigned a number of its type denotes that number; unless boolean, it has only one such form. */
  lemma StoreDenotes(kind: Kind, n: int, bytes: seq<Byte>)
    requires Denotes(kind, n, bytes)
    ensures Denotes(kind, n, Store(kind, n)) && (kind != BoolT ==> Store(kind, n) == bytes)
  {
    BytesOfNumber(bytes);
    NumberBelow(kind, bytes);
    if kind == BoolT {
      NoWrap(n, Range(BoolT));
      NumberOfBytes(n, 4);
      NumberZero(Store(kind, n));
    } else {
      SameRemainder(n, Number(bytes), Range(kind));
    }
  }

  lemma SameRemainder(n: int, u: int, r: int)
    requires r > 0 && 0 <= u < r && (n == u || (n - u) % r == 0)
    ensures n % r == u
  {
    var q := (n - u) / r;
    assert n == q * r + u by { if n == u { assert q == 0; } }
    QuotientIs(n, r, q, u);
  }

  lemma LoadMod(kind: Kind, bytes: seq<Byte>)
    requires |bytes| == Size(kind) && kind != BoolT
    ensures Load(kind, bytes).n % Range(kind) == Number(bytes)
  {
    var u := Number(bytes);
    NumberBelow(kind, bytes);
    if Load(kind, bytes).n < 0 { ModIs(u - Range(kind), Range(kind), u); } else { NoWrap(u, Range(kind)); }
  }

  lemma StoreBool(bytes: seq<Byte>)
    requires |bytes| == Size(BoolT)
    ensures Store(BoolT, Load(BoolT, bytes).n) == bytes <==> Number(bytes) <= 1
  {
    var n := Load(BoolT, bytes).n;
    BytesOfNumber(bytes);
    NoWrap(n, Range(BoolT));
    NumberOfBytes(n, 4);
  }

  lemma ModIs(n: int, r: int, u: int)
    requires 0 <= u < r && n == u - r
    ensures n % r == u
  {
  }

  lemma NumberOfBytes(n: nat, size: nat)
    requires n < 256 && size > 0
    ensures Number(Bytes(n, size)) == n
  {
    assert Bytes(n, size)[1..] == Bytes(0, size - 1);
    ZeroBytes(size - 1);
  }

  lemma {:induction false} ZeroBytes(size: nat)
    ensures Number(Bytes(0, size)) == 0
  {
    if size > 0 {
      ZeroBytes(size - 1);
      assert Bytes(0, size)[1..] == Bytes(0, size - 1);
    }
  }

  /* ---- The layout of a struct ---- */

  predicate Supported(types: seq<Kind>) {
    forall i :: 0 <= i < |types| ==> types[i] != Unsupported
  }

  /** Offset behind the last member. */
  function End(abi: Abi, types: seq<Kind>): nat
    decreases |types|, 1
  {
    if types == [] then 0 else Start(abi, types) + Size(types[|types| - 1])
  }

  /** Offset of the last member: the least one behind the others that is aligned for its type. */
  function Start(abi: Abi, types: seq<Kind>): nat
    requires types != []
    decreases |types|, 0
  {
    RoundUp(End(abi, types[..|types| - 1]), abi.Align(types[|types| - 1]))
  }

  /** Offset of member `j`. */
  function StartOf(abi: Abi, types: seq<Kind>, j: nat): nat
    requires j < |types|
  {
    Start(abi, types[..j + 1])
  }

  /** Offsets are aligned and the least possible, and no member reaches into the next. */
  lemma {:induction false} Layout(abi: Abi, types: seq<Kind>, i: nat, j: nat, w: nat)
    requires i < j < |types|
    ensures StartOf(abi, types, i) + Size(types[i]) <= StartOf(abi, types, j)
    ensures StartOf(abi, types, j) % abi.Align(types[j]) == 0
    ensures StartOf(abi, types, j - 1) + Size(types[j - 1]) <= w && w % abi.Align(types[j]) == 0 ==>
            StartOf(abi, types, j) <= w
    decreases j
  {
    assert types[..j + 1][..j] == types[..j] && types[..j][j - 1] == types[j - 1];
    LeastMultiple(End(abi, types[..j]), abi.Align(types[j]), w);
    if i < j - 1 { Layout(abi, types, i, j - 1, 0); }
  }

  lemma {:induction false} EndGrows(abi: Abi, types: seq<Kind>, j: nat)
    requires j < |types|
    ensures StartOf(abi, types, j) + Size(types[j]) <= End(abi, types)
    decreases |types|
  {
    var n := |types| - 1;
    if j < n {
      var init := types[..n];
      assert init[..j + 1] == types[..j + 1];
      EndGrows(abi, init, j);
      LeastMultiple(End(abi, init), abi.Align(types[n]), 0);
    } else {
      assert types[..j + 1] == types;
    }
  }

  /** The memory holds the struct, as far as its types are supported. */
  ghost predicate Room(abi: Abi, types: seq<Kind>, size: nat) {
    abi.Fits(size) && forall i {:trigger types[..i]} :: 0 <= i <= |types| && Supported(types[..i]) ==>
      End(abi, types[..i]) <= size
  }

  function Slice(mem: seq<Byte>, start: nat, size: nat): seq<Byte> {
    if start + size <= |mem| then mem[start..start + size] else []
  }

  function Member(abi: Abi, mem: seq<Byte>, types: seq<Kind>, j: nat): seq<Byte>
    requires j < |types|
  {
    Slice(mem, StartOf(abi, types, j), Size(types[j]))
  }

  /* ---- From a struct to an array ---- */

  /** The values of a struct's members. */
  function Members(abi: Abi, mem: seq<Byte>, types: seq<Kind>): (items: seq<Item>)
    ensures |items| == |types|
  {
    if types == [] then []
    else
      var n := |types| - 1;
      Members(abi, mem, types[..n]) + [Load(types[n], Slice(mem, Start(abi, types), Size(types[n])))]
  }

  /** The type under which the array carries a member. */
  function Carrier(kind: Kind): Kind {
    match kind
    case UInt16T => UIntT
    case Int16T => IntT
    case _ => kind
  }

  function Widened(items: seq<Item>): (wide: seq<Item>)
    ensures |wide| == |items|
  {
    seq(|items|, i requires 0 <= i < |items| => items[i].(kind := Carrier(items[i].kind)))
  }

  /** blconf_fixup_16bit_ints: a new array with every 16-bit value widened, or none if there is nothing to widen. */
  method Fixup16BitInts(arr: seq<Item>) returns (wide: Option<seq<Item>>)
    ensures wide.None? ==> Widened(arr) == arr
    ensures wide.Some? ==> wide.value == Widened(arr) && Widened(arr) != arr
  {
    var i := 0;
    while i < |arr| && arr[i].kind != UInt16T && arr[i].kind != Int16T
      invariant i <= |arr| && Widened(arr)[..i] == arr[..i]
    {
      assert Widened(arr)[..i + 1] == Widened(arr)[..i] + [Widened(arr)[i]] && arr[..i + 1] == arr[..i] + [arr[i]];
      i := i + 1;
    }
    if i == |arr| {
      assert Widened(arr)[..i] == Widened(arr) && arr[..i] == arr;
      return None;
    }
    assert Widened(arr)[i] != arr[i];
    var out: seq<Item> := [];
    i := 0;
    while i < |arr|
      invariant i <= |arr| && out == Widened(arr)[..i]
    {
      var v := arr[i];
      out := out + [if v.kind == UInt16T then Item(UIntT, v.n) else if v.kind == Int16T then Item(IntT, v.n) else v];
      i := i + 1;
    }
    assert Widened(arr)[..i] == Widened(arr);
    return Some(out);
  }

  /** One member more: where it starts and ends. */
  lemma OneMore(abi: Abi, types: seq<Kind>, i: nat, size: nat)
    requires i < |types| && Room(abi, types, size) && Supported(types[..i]) && types[i] != Unsupported
    ensures types[..i + 1][..i] == types[..i] && Supported(types[..i + 1])
    ensures End(abi, types[..i]) <= size && abi.shift(types[i]) <= 64 && size + abi.Align(types[i]) <= WORD
    ensures Start(abi, types[..i + 1]) == RoundUp(End(abi, types[..i]), abi.Align(types[i]))
    ensures End(abi, types[..i + 1]) == Start(abi, types[..i + 1]) + Size(types[i]) <= size
  {
    assert types[..i + 1][..i] == types[..i];
  }

  /** GET_STRUCT_VAL */
  method GetStructVal(abi: Abi, mem: array<Byte>, offset: nat, kind: Kind) returns (item: Item, next: nat)
    requires abi.shift(kind) <= 64 && offset + abi.Align(kind) <= WORD
    requires RoundUp(offset, abi.Align(kind)) + Size(kind) <= mem.Length
    ensures item == Load(kind, Slice(mem[..], RoundUp(offset, abi.Align(kind)), Size(kind)))
    ensures next == RoundUp(offset, abi.Align(kind)) + Size(kind)
  {
    AlignIsRoundUp(offset, abi.shift(kind));
    var at := AlignVal(offset, abi.Align(kind));
    assert mem[..][at..at + Size(kind)] == mem[at..at + Size(kind)];
    item, next := Load(kind, mem[at..at + Size(kind)]), at + Size(kind);
  }

  lemma MemberDenotes(abi: Abi, mem: seq<Byte>, types: seq<Kind>, j: nat)
    requires Room(abi, types, |mem|) && Supported(types) && j < |types|
    ensures var x := Members(abi, mem, types)[j];
            x.kind == types[j] && Denotes(types[j], x.n, Member(abi, mem, types, j))
  {
    assert types[..|types|] == types;
    MembersAt(abi, mem, types, j);
    EndGrows(abi, types, j);
    LoadDenotes(types[j], Member(abi, mem, types, j));
  }

  /** blconf_channel_set_structv, up to the array it sends. */
  method SetStruct(abi: Abi, mem: array<Byte>, types: seq<Kind>) returns (ok: bool, sent: seq<Item>)
    requires Room(abi, types, mem.Length)
    ensures ok <==> types != [] && Supported(types)
    ensures !ok ==> sent == []
    ensures ok ==> sent == Widened(Members(abi, mem[..], types))
    ensures ok ==> forall j :: 0 <= j < |types| ==>
              && sent[j].kind == (if types[j] == UInt16T then UIntT else if types[j] == Int16T then IntT else types[j])
              && Denotes(types[j], sent[j].n, Member(abi, mem[..], types, j))
  {
    ok, sent := false, [];
    if types == [] { return; }
    var arr: seq<Item> := [];
    var offset := 0;
    for i := 0 to |types|
      invariant Supported(types[..i]) && arr == Members(abi, mem[..], types[..i])
      invariant offset == End(abi, types[..i])
    {
      if types[i] == Unsupported { return; }
      OneMore(abi, types, i, mem.Length);
      var item, next := GetStructVal(abi, mem, offset, types[i]);
      arr, offset := arr + [item], next;
    }
    assert types[..|types|] == types;
    var wide := Fixup16BitInts(arr);
    ok, sent := true, if wide.Some? then wide.value else arr;
    forall j | 0 <= j < |types| ensures Denotes(types[j], sent[j].n, Member(abi, mem[..], types, j)) &&
        sent[j].kind == if types[j] == UInt16T then UIntT else if types[j] == Int16T then IntT else types[j] {
      MemberDenotes(abi, mem[..], types, j);
    }
  }

  /* ---- From an array to a struct ---- */

  function Write(mem: seq<Byte>, start: nat, bytes: seq<Byte>): (r: seq<Byte>)
    ensures |r| == |mem|
  {
    if start + |bytes| <= |mem| then mem[..start] + bytes + mem[start + |bytes|..] else mem
  }

  /** The memory after the first members have been assigned. */
  function Assigned(abi: Abi, mem: seq<Byte>, types: seq<Kind>, items: seq<Item>): (r: seq<Byte>)
    requires |types| <= |items|
    ensures |r| == |mem|
  {
    if types == [] then mem
    else
      var n := |types| - 1;
      Write(Assigned(abi, mem, types[..n], items), Start(abi, types), Store(types[n], items[n].n))
  }

  /** The first position, from `i` on, where the array does not hold what the struct expects. */
  function Matching(types: seq<Kind>, items: seq<Item>, i: nat): (k: nat)
    requires i <= |types| == |items|
    ensures i <= k <= |types|
    decreases |types| - i
  {
    if i < |types| && types[i] != Unsupported && items[i].kind == Carrier(types[i]) then Matching(types, items, i + 1)
      else i
  }

  /** Everything matches exactly when each type is supported and its value has the type that carries it. */
  lemma {:induction false} MatchingIs(types: seq<Kind>, items: seq<Item>, i: nat)
    requires i <= |types| == |items|
    ensures Matching(types, items, i) == |types| <==> forall j :: i <= j < |types| ==>
              && types[j] != Unsupported
              && items[j].kind == if types[j] == UInt16T then UIntT else if types[j] == Int16T then IntT else types[j]
    decreases |types| - i
  {
    if i < |types| { MatchingIs(types, items, i + 1); }
  }

  /** SET_STRUCT_VAL: one store through the member's pointer. */
  method SetStructVal(abi: Abi, mem: array<Byte>, offset: nat, kind: Kind, n: int) returns (next: nat)
    requires abi.shift(kind) <= 64 && offset + abi.Align(kind) <= WORD
    requires RoundUp(offset, abi.Align(kind)) + Size(kind) <= mem.Length
    modifies mem
    ensures mem[..] == Write(old(mem[..]), RoundUp(offset, abi.Align(kind)), Store(kind, n))
    ensures next == RoundUp(offset, abi.Align(kind)) + Size(kind)
  {
    AlignIsRoundUp(offset, abi.shift(kind));
    var at := AlignVal(offset, abi.Align(kind));
    Poke(mem, at, Store(kind, n));
    next := at + Size(kind);
  }

  method Poke(mem: array<Byte>, start: nat, bytes: seq<Byte>)
    requires start + |bytes| <= mem.Length
    modifies mem
    ensures mem[..] == Write(old(mem[..]), start, bytes)
  {
    forall j | 0 <= j < |bytes| {
      mem[start + j] := bytes[j];
    }
  }

  /** blconf_channel_get_structv, from the array it receives; members before the first mismatch have been assigned. */
  method GetStruct(abi: Abi, mem: array<Byte>, types: seq<Kind>, received: seq<Item>) returns (ok: bool)
    requires Room(abi, types, mem.Length)
    modifies mem
    ensures ok <==> types != [] && |received| == |types| && forall i :: 0 <= i < |types| ==>
              && types[i] != Unsupported
              && received[i].kind ==
                 if types[i] == UInt16T then UIntT else if types[i] == Int16T then IntT else types[i]
    ensures mem[..] == if |received| != |types| then old(mem[..])
                       else Assigned(abi, old(mem[..]), types[..Matching(types, received, 0)], received)
  {
    ok := false;
    if types == [] || |received| != |types| { return; }
    MatchingIs(types, received, 0);
    var offset := 0;
    for i := 0 to |types|
      invariant Supported(types[..i]) && Matching(types, received, 0) == Matching(types, received, i)
      invariant offset == End(abi, types[..i])
      invariant mem[..] == Assigned(abi, old(mem[..]), types[..i], received)
    {
      if types[i] == Unsupported || received[i].kind != Carrier(types[i]) { return; }
      OneMore(abi, types, i, mem.Length);
      offset := SetStructVal(abi, mem, offset, types[i], received[i].n);
    }
    ok := true;
  }

  /* ---- The round trip ---- */

  predicate InMember(abi: Abi, types: seq<Kind>, j: int, x: int) {
    0 <= j < |types| && StartOf(abi, types, j) <= x < StartOf(abi, types, j) + Size(types[j])
  }

  /** Every member holds what was assigned to it, and nothing else was touched. */
  lemma {:induction false} AssignedMember(abi: Abi, mem: seq<Byte>, types: seq<Kind>, items: seq<Item>, j: nat)
    requires |types| <= |items| && j < |types| && End(abi, types) <= |mem|
    ensures Member(abi, Assigned(abi, mem, types, items), types, j) == Store(types[j], items[j].n)
    decreases |types|
  {
    var n, init := |types| - 1, types[..|types| - 1];
    LeastMultiple(End(abi, init), abi.Align(types[n]), 0);
    assert types[..n + 1] == types;
    if j < n {
      assert init[..j + 1] == types[..j + 1];
      EndGrows(abi, init, j);
      AssignedMember(abi, mem, init, items, j);
      WriteBehind(Assigned(abi, mem, init, items), Start(abi, types), Store(types[n], items[n].n),
        StartOf(abi, types, j), Size(types[j]));
    } else {
      WriteThere(Assigned(abi, mem, init, items), Start(abi, types), Store(types[n], items[n].n));
    }
  }

  /** A member that received a number of its type denotes that number. */
  lemma ReceivedMember(abi: Abi, mem: seq<Byte>, types: seq<Kind>, items: seq<Item>, j: nat, bytes: seq<Byte>)
    requires |types| <= |items| && j < |types| && End(abi, types) <= |mem| && Denotes(types[j], items[j].n, bytes)
    ensures Denotes(types[j], items[j].n, Member(abi, Assigned(abi, mem, types, items), types, j))
  {
    AssignedMember(abi, mem, types, items, j);
    StoreDenotes(types[j], items[j].n, bytes);
  }

  lemma WriteBehind(mem: seq<Byte>, start: nat, bytes: seq<Byte>, at: nat, size: nat)
    requires at + size <= start && start + |bytes| <= |mem|
    ensures Slice(Write(mem, start, bytes), at, size) == Slice(mem, at, size)
  {
  }

  lemma WriteThere(mem: seq<Byte>, start: nat, bytes: seq<Byte>)
    requires start + |bytes| <= |mem|
    ensures Slice(Write(mem, start, bytes), start, |bytes|) == bytes
  {
  }

  lemma {:induction false} OthersKeep(abi: Abi, mem: seq<Byte>, types: seq<Kind>, items: seq<Item>, x: nat)
    requires |types| <= |items| && x < |mem| && forall j :: !InMember(abi, types, j, x)
    ensures Assigned(abi, mem, types, items)[x] == mem[x]
    decreases |types|
  {
    if types != [] {
      var n, init := |types| - 1, types[..|types| - 1];
      forall j ensures !InMember(abi, init, j, x) {
        if 0 <= j < n { assert init[..j + 1] == types[..j + 1] && !InMember(abi, types, j, x); }
      }
      OthersKeep(abi, mem, init, items, x);
      assert types[..n + 1] == types && !InMember(abi, types, n, x);
    }
  }

  lemma {:induction false} MembersAt(abi: Abi, mem: seq<Byte>, types: seq<Kind>, j: nat)
    requires j < |types|
    ensures Members(abi, mem, types)[j] == Load(types[j], Member(abi, mem, types, j))
    decreases |types|
  {
    var n, init := |types| - 1, types[..|types| - 1];
    if j < n {
      assert init[..j + 1] == types[..j + 1];
      MembersAt(abi, mem, init, j);
    } else {
      assert types[..j + 1] == types;
    }
  }

  lemma {:induction false} SentMatches(abi: Abi, mem: seq<Byte>, types: seq<Kind>, i: nat)
    requires Supported(types) && i <= |types|
    ensures Matching(types, Widened(Members(abi, mem, types)), i) == |types|
    decreases |types| - i
  {
    if i < |types| {
      MembersAt(abi, mem, types, i);
      SentMatches(abi, mem, types, i + 1);
    }
  }

  /**
   Sending a struct and receiving it elsewhere: the array matches the types, and each member arrives byte for byte,
   16-bit ones included, exactly when it is no boolean other than TRUE or FALSE.
   */
  lemma StructRoundTrip(abi: Abi, from: seq<Byte>, to: seq<Byte>, types: seq<Kind>, j: nat)
    requires Supported(types) && End(abi, types) <= |from| && End(abi, types) <= |to| && j < |types|
    ensures var sent := Widened(Members(abi, from, types));
            && Matching(types, sent, 0) == |types|
            && (Member(abi, Assigned(abi, to, types, sent), types, j) == Member(abi, from, types, j) <==>
                (types[j] == BoolT ==> Number(Member(abi, from, types, j)) <= 1))
  {
    var sent := Widened(Members(abi, from, types));
    SentMatches(abi, from, types, 0);
    AssignedMember(abi, to, types, sent, j);
    SentMember(abi, from, types, j);
  }

  lemma SentMember(abi: Abi, mem: seq<Byte>, types: seq<Kind>, j: nat)
    requires End(abi, types) <= |mem| && j < |types|
    ensures Store(types[j], Widened(Members(abi, mem, types))[j].n) == Member(abi, mem, types, j) <==>
            (types[j] == BoolT ==> Number(Member(abi, mem, types, j)) <= 1)
  {
    MembersAt(abi, mem, types, j);
    EndGrows(abi, types, j);
    LoadStore(types[j], Member(abi, mem, types, j));
  }
}
