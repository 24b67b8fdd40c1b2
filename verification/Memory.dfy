/** Runtime types of memory words and their partial order (core_sim/src/ty.rs). */
module Types {
  import opened Wrappers

  datatype Ty = I32 | Usize | I32OrUsize | F32 | Unknown

  datatype Ordering = Less | Equal | Greater | Incomparable

  /** `partial_cmp`: a larger type is a more precise one. */
  function Compare(a: Ty, b: Ty): Ordering {
    if a == b then Equal
    else if (a == I32 || a == Usize) && b == I32OrUsize then Greater
    else if a == I32OrUsize && (b == I32 || b == Usize) then Less
    else if b == Unknown then Greater
    else if a == Unknown then Less
    else Incomparable
  }

  predicate Below(a: Ty, b: Ty) { Compare(a, b) == Less || Compare(a, b) == Equal }

  /** The order is a partial order with Unknown at the bottom. */
  lemma TyIsPartialOrder(a: Ty, b: Ty, c: Ty)
    ensures Below(a, a) && Below(Unknown, a)
    ensures Below(a, b) && Below(b, a) ==> a == b
    ensures Below(a, b) && Below(b, c) ==> Below(a, c)
    ensures Compare(a, b) == Less <==> Compare(b, a) == Greater
    ensures Below(a, b) <==> a == b || a == Unknown || (a == I32OrUsize && b in {I32, Usize})
  {
  }

  /** The two classes of data a word can hold. */
  datatype Class = Int | Float

  function ClassOf(t: Ty): Option<Class> {
    match t
    case Unknown => None
    case F32 => Some(Float)
    case _ => Some(Int)
  }

  /** The type a class of access demands. */
  function Demand(c: Class): Ty { if c == Int then I32OrUsize else F32 }
}

/** The typed, write-protected memory (core_sim/src/memory.rs). Data is accessed by word address;
    the text range, given in bytes, is readable only through the program counter. */
module Memory {
  import opened Wrappers
  import opened Types
  import BV = BitVectors

  /** `Panic` stands for a Rust panic: a slice index out of range. */
  datatype Fault =
    | OutOfBounds(addr: nat)
    | PcOutOfBounds(pc: nat)
    | ViolateTransmutation(expected: Ty, attempt: Ty)
    | Panic

  datatype Typed = Typed(value: bv32, ty: Ty)

  /** A watch on a word. Nothing reads `expireAt`, but it is kept and reported. */
  datatype SpyUnit = SpyUnit(addr: nat, expireAt: Option<nat>)

  /** The watches, by word address. */
  datatype Spies = Spies(onRead: map<nat, SpyUnit>, onWrite: map<nat, SpyUnit>)

  const NO_SPIES: Spies := Spies(map[], map[])

  /** A watched word was read or written. */
  datatype SpyHit = NoSpy | SpyRead(target: SpyUnit) | SpyWrite(target: SpyUnit, before: Typed, after: Typed)

  /** The value of a memory object. */
  datatype Mem = Mem(bytes: seq<bv8>, types: seq<Ty>, lo: nat, hi: nat, spies: Spies)

  /** What the loader establishes: whole words, and a text range that does not split one. */
  predicate WellFormed(m: Mem) {
    && |m.bytes| % 4 == 0 && |m.types| == |m.bytes| / 4
    && m.lo % 4 == 0 && m.hi % 4 == 0
  }

  datatype Access =
    | Load(kind: Class, addr: nat)
    | Store(kind: Class, addr: nat, value: bv32)
    | Peek(addr: nat)

  datatype Reply = Loaded(typed: Typed) | Stored | Failed(fault: Fault)
  datatype Performed = Performed(mem: Mem, reply: Reply, spied: SpyHit)

  function ToLe(x: bv32): (s: seq<bv8>)
    ensures |s| == 4
  {
    [(x & 0xFF) as bv8, ((x >> 8) & 0xFF) as bv8, ((x >> 16) & 0xFF) as bv8, (x >> 24) as bv8]
  }

  function FromLe(s: seq<bv8>): bv32
    requires |s| == 4
  {
    (s[0] as bv32) | ((s[1] as bv32) << 8) | ((s[2] as bv32) << 16) | ((s[3] as bv32) << 24)
  }

  /** The number four bytes stand for, least significant first. */
  function LittleEndianNat(s: seq<bv8>): nat
    requires |s| == 4
  {
    BV.Nat8(s[0]) + 0x100 * BV.Nat8(s[1]) + 0x1_0000 * BV.Nat8(s[2]) + 0x100_0000 * BV.Nat8(s[3])
  }

  lemma FromLeMeaning(s: seq<bv8>)
    requires |s| == 4
    ensures BV.Nat(FromLe(s)) == LittleEndianNat(s)
  {
    hide BV.Nat, BV.Nat8;
    BV.BytesNat(s[0], s[1], s[2], s[3]);
  }

  lemma LittleEndian(x: bv32)
    ensures FromLe(ToLe(x)) == x
  {
  }

  /** `get_raw_addr`. */
  function RawWord(bytes: seq<bv8>, index: nat): bv32
    requires index + 4 <= |bytes|
  {
    FromLe(bytes[index..index + 4])
  }

  /** `bounds_check!`. */
  predicate InBounds(m: Mem, addr: nat) { addr * 4 < |m.bytes| && !(m.lo <= addr * 4 < m.hi) }

  /** `unify`: None is the type error. */
  function Unify(ty: Ty, attempt: Ty): (r: Option<Ty>)
    ensures r.Some? ==> Below(ty, r.value) && Below(attempt, r.value)
  {
    if Compare(ty, attempt) == Less then Some(attempt)
    else if Compare(ty, attempt) == Greater || Compare(ty, attempt) == Equal then Some(ty)
    else None
  }

  /** `get_i`, `get_f` and `get`: the last one demands nothing. */
  function Read(m: Mem, addr: nat, attempt: Ty): Performed
    requires WellFormed(m)
  {
    if !InBounds(m, addr) then Performed(m, Failed(OutOfBounds(addr)), NoSpy)
    else
      var u := Unify(m.types[addr], attempt);
      if u.None? then Performed(m, Failed(ViolateTransmutation(m.types[addr], attempt)), NoSpy)
      else
        Performed(m.(types := m.types[addr := u.value]), Loaded(Typed(RawWord(m.bytes, addr * 4), u.value)),
                  if addr in m.spies.onRead then SpyRead(m.spies.onRead[addr]) else NoSpy)
  }

  function Splice(bytes: seq<bv8>, index: nat, v: seq<bv8>): (r: seq<bv8>)
    requires index + |v| <= |bytes|
    ensures |r| == |bytes|
  {
    bytes[..index] + v + bytes[index + |v|..]
  }

  /** `set` and `set_f`. */
  function Write(m: Mem, addr: nat, value: bv32, ty: Ty): Performed
    requires WellFormed(m)
  {
    if !InBounds(m, addr) then Performed(m, Failed(OutOfBounds(addr)), NoSpy)
    else
      Performed(m.(types := m.types[addr := ty], bytes := Splice(m.bytes, addr * 4, ToLe(value))), Stored,
                if addr in m.spies.onWrite
                then SpyWrite(m.spies.onWrite[addr], Typed(RawWord(m.bytes, addr * 4), m.types[addr]), Typed(value, ty)) else NoSpy)
  }

  function Perform(m: Mem, a: Access): Performed
    requires WellFormed(m)
  {
    match a
    case Load(c, addr) => Read(m, addr, Demand(c))
    case Peek(addr) => Read(m, addr, Unknown)
    case Store(c, addr, value) => Write(m, addr, value, Demand(c))
  }

  datatype Fetched = Word(bin: bv32) | NoWord(fault: Fault)

  /** `get_from_pc`. */
  function Fetch(m: Mem, pc: nat): Fetched {
    if !(m.lo <= pc < m.hi) then NoWord(PcOutOfBounds(pc))
    else if pc + 4 > |m.bytes| then NoWord(Panic)
    else Word(RawWord(m.bytes, pc))
  }

  /** `add_spy`: a new watch of a word replaces the old one. */
  function Watching(s: Spies, read: bool, write: bool, u: SpyUnit): Spies {
    Spies(if read then s.onRead[u.addr := u] else s.onRead, if write then s.onWrite[u.addr := u] else s.onWrite)
  }

  /** `remove_spy`. */
  function Unwatching(s: Spies, read: bool, write: bool, addr: nat): Spies {
    Spies(if read then s.onRead - {addr} else s.onRead, if write then s.onWrite - {addr} else s.onWrite)
  }

  /** The memory object. Its fields are updated in place. */
  class Memory {
    var inner: seq<bv8>
    var ty: seq<Ty>
    var lo: nat
    var hi: nat
    var spy: Spies

    function Value(): Mem
      reads this
    {
      Mem(inner, ty, lo, hi, spy)
    }

    constructor (size: nat)
      requires size % 4 == 0
      ensures Value() == Mem(seq(size, _ => 0xCC), seq(size / 4, _ => Unknown), 0, 0, NO_SPIES)
    {
      inner := seq(size, _ => 0xCC);
      ty := seq(size / 4, _ => Unknown);
      lo, hi := 0, 0;
      spy := NO_SPIES;
    }

    /** Returns false where the source panics because the image is larger than the memory. */
    method InitFromSlice(mem: seq<bv8>, textLo: nat, textHi: nat) returns (fits: bool)
      modifies this
      ensures fits <==> |mem| <= |old(inner)|
      ensures fits ==> Value() == old(Value()).(bytes := mem + old(inner)[|mem|..], lo := textLo, hi := textHi)
    {
      fits := |mem| <= |inner|;
      if fits {
        inner := mem + inner[|mem|..];
        lo, hi := textLo, textHi;
      }
    }

    method AddSpy(read: bool, write: bool, u: SpyUnit)
      modifies `spy
      ensures spy == Watching(old(spy), read, write, u)
    {
      if read { spy := spy.(onRead := spy.onRead[u.addr := u]); }
      if write { spy := spy.(onWrite := spy.onWrite[u.addr := u]); }
    }

    method RemoveSpy(read: bool, write: bool, u: SpyUnit)
      modifies `spy
      ensures spy == Unwatching(old(spy), read, write, u.addr)
    {
      if read { spy := spy.(onRead := spy.onRead - {u.addr}); }
      if write { spy := spy.(onWrite := spy.onWrite - {u.addr}); }
    }

    /** `get_i`, `get_f`, `get`: reading refines the type of the word in place. */
    method Get(addr: nat, attempt: Ty) returns (reply: Reply, spied: SpyHit)
      requires WellFormed(Value())
      modifies `ty
      ensures Performed(Value(), reply, spied) == Read(old(Value()), addr, attempt)
    {
      spied := NoSpy;
      var index := addr * 4;
      if index >= |inner| || (lo <= index < hi) {
        return Failed(OutOfBounds(addr)), spied;
      }
      var u := Unify(ty[addr], attempt);
      if u.None? {
        return Failed(ViolateTransmutation(ty[addr], attempt)), spied;
      }
      ty := ty[addr := u.value];
      if addr in spy.onRead {
        spied := SpyRead(spy.onRead[addr]);
      }
      reply := Loaded(Typed(RawWord(inner, index), u.value));
    }

    method GetFromPc(pc: nat) returns (r: Fetched)
      ensures r == Fetch(Value(), pc)
    {
      if lo <= pc < hi {
        if pc + 4 > |inner| {
          return NoWord(Panic);
        }
        return Word(RawWord(inner, pc));
      }
      return NoWord(PcOutOfBounds(pc));
    }

    /** `set`, `set_f`: the spy sees the old contents, the new type replaces the old one. */
    method Set(addr: nat, value: bv32, newTy: Ty) returns (reply: Reply, spied: SpyHit)
      requires WellFormed(Value())
      modifies `inner, `ty
      ensures Performed(Value(), reply, spied) == Write(old(Value()), addr, value, newTy)
    {
      spied := NoSpy;
      var index := addr * 4;
      if index >= |inner| || (lo <= index < hi) {
        return Failed(OutOfBounds(addr)), spied;
      }
      if addr in spy.onWrite {
        spied := SpyWrite(spy.onWrite[addr], Typed(RawWord(inner, index), ty[addr]), Typed(value, newTy));
      }
      ty := ty[addr := newTy];
      inner := inner[..index] + ToLe(value) + inner[index + 4..];
      reply := Stored;
    }
  }

  // ---- Every history of accesses ----

  lemma PerformWellFormed(m: Mem, a: Access)
    requires WellFormed(m)
    ensures var p := Perform(m, a).mem;
            WellFormed(p) && p.lo == m.lo && p.hi == m.hi && |p.bytes| == |m.bytes|
            && p.spies == m.spies
  {
  }

  lemma FailedChangesNothing(m: Mem, a: Access)
    requires WellFormed(m)
    ensures Perform(m, a).reply.Failed? ==> Perform(m, a).mem == m
  {
  }

  /** The memory after a history, oldest access first. */
  function AfterAccesses(m: Mem, h: seq<Access>): (r: Mem)
    requires WellFormed(m)
    ensures WellFormed(r) && r.lo == m.lo && r.hi == m.hi && |r.bytes| == |m.bytes|
  {
    if h == [] then m
    else
      var p := AfterAccesses(m, h[..|h| - 1]);
      PerformWellFormed(p, h[|h| - 1]);
      Perform(p, h[|h| - 1]).mem
  }

  /** Reference, by words: inside the memory and outside the text. */
  predicate DataWord(m: Mem, a: nat) { a < |m.bytes| / 4 && !(m.lo / 4 <= a < m.hi / 4) }

  lemma InBoundsIs(m: Mem, a: nat)
    requires WellFormed(m)
    ensures InBounds(m, a) <==> DataWord(m, a)
  {
  }

  /** Reference: the last value stored to word `a`, or the initial word. Depends on the initial
      bytes and the history only. */
  function LastValue(m: Mem, h: seq<Access>, a: nat): bv32
    requires WellFormed(m) && a * 4 < |m.bytes|
  {
    if h == [] then RawWord(m.bytes, a * 4)
    else
      var last := h[|h| - 1];
      if last.Store? && last.addr == a && DataWord(m, a) then last.value
      else LastValue(m, h[..|h| - 1], a)
  }

  /** Reference: the class of word `a`, given by its last store, else by its first load. */
  function LastClass(m: Mem, h: seq<Access>, a: nat): Option<Class>
    requires WellFormed(m) && a * 4 < |m.bytes|
  {
    if h == [] then ClassOf(m.types[a])
    else
      var last, before := h[|h| - 1], LastClass(m, h[..|h| - 1], a);
      if !DataWord(m, a) || last.addr != a || last.Peek? then before
      else if last.Store? then Some(last.kind)
      else if before == None then Some(last.kind)
      else before
  }

  /** Words do not overlap: a splice at one word leaves the others alone. */
  lemma SpliceWord(bytes: seq<bv8>, a: nat, value: bv32, b: nat)
    requires |bytes| % 4 == 0 && a * 4 < |bytes| && b * 4 < |bytes|
    ensures RawWord(Splice(bytes, a * 4, ToLe(value)), b * 4) == if a == b then value else RawWord(bytes, b * 4)
  {
    hide ToLe, FromLe;
    var s := Splice(bytes, a * 4, ToLe(value));
    LittleEndian(value);
    if a == b {
      assert s[b * 4..b * 4 + 4] == ToLe(value);
    } else {
      assert s[b * 4..b * 4 + 4] == bytes[b * 4..b * 4 + 4];
    }
  }

  /** The memory refines the reference after every history. */
  lemma {:induction false} HistoryWord(m: Mem, h: seq<Access>, a: nat)
    requires WellFormed(m) && a * 4 < |m.bytes|
    ensures RawWord(AfterAccesses(m, h).bytes, a * 4) == LastValue(m, h, a)
    ensures ClassOf(AfterAccesses(m, h).types[a]) == LastClass(m, h, a)
  {
    hide RawWord, ToLe, Splice;
    InBoundsIs(m, a);
    if h != [] {
      var last, p := h[|h| - 1], AfterAccesses(m, h[..|h| - 1]);
      HistoryWord(m, h[..|h| - 1], a);
      if last.Store? && InBounds(p, last.addr) { SpliceWord(p.bytes, last.addr, last.value, a); }
    }
  }

  /** Reference: whether a load of class `c` from `a` succeeds after a history. */
  predicate LoadAllowed(m: Mem, h: seq<Access>, c: Class, a: nat)
    requires WellFormed(m)
  {
    DataWord(m, a) && (LastClass(m, h, a) == None || LastClass(m, h, a) == Some(c))
  }

  /** Main result: after every history, a load succeeds exactly when it is in bounds and its class
      agrees with the last store (or the first load since the start), and it returns the last value
      stored there or the initial bytes; a store succeeds exactly when it is in bounds. */
  lemma AccessAfterHistory(m: Mem, h: seq<Access>, a: Access)
    requires WellFormed(m)
    ensures var r := Perform(AfterAccesses(m, h), a).reply;
            && (r.Failed? <==> if a.Load? then !LoadAllowed(m, h, a.kind, a.addr) else !DataWord(m, a.addr))
            && (!r.Failed? ==> if a.Store? then r.Stored? else r.Loaded? && r.typed.value == LastValue(m, h, a.addr))
  {
    hide RawWord, ToLe, Splice;
    InBoundsIs(m, a.addr);
    if InBounds(m, a.addr) { HistoryWord(m, h, a.addr); }
  }

  /** After every history, a watched access that works reports its watch, and a watched store also
      the last value stored there and the new one. */
  lemma SpyAfterHistory(m: Mem, h: seq<Access>, a: Access)
    requires WellFormed(m)
    ensures var p := Perform(AfterAccesses(m, h), a); var watched := if a.Store? then m.spies.onWrite else m.spies.onRead;
            && (p.spied == NoSpy <==> p.reply.Failed? || a.addr !in watched)
            && (p.spied.SpyRead? ==> !a.Store? && p.spied.target == watched[a.addr])
            && (p.spied.SpyWrite? ==>
                  && a.Store? && p.spied.target == watched[a.addr] && p.spied.after == Typed(a.value, Demand(a.kind))
                  && DataWord(m, a.addr) && p.spied.before.value == LastValue(m, h, a.addr) && ClassOf(p.spied.before.ty) == LastClass(m, h, a.addr))
  {
    hide RawWord, ToLe, Splice, AfterAccesses;
    KeepsSpies(m, h);
    InBoundsIs(m, a.addr);
    InBoundsIs(AfterAccesses(m, h), a.addr);
    if InBounds(m, a.addr) { HistoryWord(m, h, a.addr); }
  }

  lemma {:induction false} KeepsSpies(m: Mem, h: seq<Access>)
    requires WellFormed(m)
    ensures AfterAccesses(m, h).spies == m.spies
  {
    hide Perform;
    if h != [] {
      KeepsSpies(m, h[..|h| - 1]);
      PerformWellFormed(AfterAccesses(m, h[..|h| - 1]), h[|h| - 1]);
    }
  }

  predicate Succeeds(m: Mem, h: seq<Access>, i: nat)
    requires WellFormed(m) && i < |h|
  {
    !Perform(AfterAccesses(m, h[..i]), h[i]).reply.Failed?
  }

  /** The class of a word stays put as long as nobody stores to it. */
  lemma {:induction false} ClassPersists(m: Mem, h: seq<Access>, i: nat, j: nat, a: nat, c: Class)
    requires WellFormed(m) && a * 4 < |m.bytes| && i <= j <= |h|
    requires LastClass(m, h[..i], a) == Some(c)
    requires forall k :: i <= k < j ==> !(h[k].Store? && h[k].addr == a)
    ensures LastClass(m, h[..j], a) == Some(c)
  {
    if i < j {
      ClassPersists(m, h, i, j - 1, a, c);
      assert h[..j][..j - 1] == h[..j - 1];
      assert h[..j][j - 1] == h[j - 1];
    }
  }

  /** Main result: between two stores to a word, all successful loads of it are of one class, and
      after a store it is the store's class. */
  lemma OneClassBetweenStores(m: Mem, h: seq<Access>, i: nat, j: nat)
    requires WellFormed(m) && i < j < |h|
    requires !h[i].Peek? && h[j].Load? && h[i].addr == h[j].addr
    requires Succeeds(m, h, i) && Succeeds(m, h, j)
    requires forall k :: i < k < j ==> !(h[k].Store? && h[k].addr == h[i].addr)
    ensures h[i].kind == h[j].kind
  {
    var a := h[i].addr;
    AccessAfterHistory(m, h[..i], h[i]);
    AccessAfterHistory(m, h[..j], h[j]);
    assert h[..i + 1][..i] == h[..i] && h[..i + 1][i] == h[i];
    ClassPersists(m, h, i + 1, j, a, h[i].kind);
  }

  /** Loads change no byte and only refine types. */
  lemma LoadsRefineTypes(m: Mem, a: Access, k: nat)
    requires WellFormed(m) && !a.Store? && k < |m.types|
    ensures Perform(m, a).mem.bytes == m.bytes
    ensures Below(m.types[k], Perform(m, a).mem.types[k])
  {
  }

  /** A store that passes the bounds check does not touch the text. */
  lemma PerformKeepsText(m: Mem, a: Access, i: nat)
    requires WellFormed(m) && m.lo <= i < m.hi && i < |m.bytes|
    ensures Perform(m, a).mem.bytes[i] == m.bytes[i]
  {
    hide ToLe, RawWord;
    if a.Store? && InBounds(m, a.addr) {
      assert !(a.addr * 4 <= i < a.addr * 4 + 4);
    }
  }

  /** No history changes a byte of the text range. */
  lemma {:induction false} TextBytes(m: Mem, h: seq<Access>, i: nat)
    requires WellFormed(m) && m.lo <= i < m.hi && i < |m.bytes|
    ensures AfterAccesses(m, h).bytes[i] == m.bytes[i]
  {
    hide Perform;
    if h != [] {
      TextBytes(m, h[..|h| - 1], i);
      PerformKeepsText(AfterAccesses(m, h[..|h| - 1]), h[|h| - 1], i);
    }
  }

  /** Main result: after every history, a fetch of a word inside the text returns the loaded
      instruction, and a fetch outside it fails. */
  lemma TextIsProtected(m: Mem, h: seq<Access>, pc: nat)
    requires WellFormed(m) && (pc + 4 <= m.hi || !(m.lo <= pc < m.hi))
    ensures Fetch(AfterAccesses(m, h), pc) == Fetch(m, pc)
  {
    hide ToLe, FromLe;
    if m.lo <= pc && pc + 4 <= |m.bytes| && pc < m.hi {
      forall i | pc <= i < pc + 4
        ensures AfterAccesses(m, h).bytes[i] == m.bytes[i]
      {
        TextBytes(m, h, i);
      }
      assert AfterAccesses(m, h).bytes[pc..pc + 4] == m.bytes[pc..pc + 4];
    }
  }
}
