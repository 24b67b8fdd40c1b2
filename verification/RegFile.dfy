/** The two register arrays (core_sim/src/reg_file.rs), written in place. */
module RegFile {
  import opened Instr
  import Isa

  const FONE: bv32 := 0x3F80_0000

  class RegFile {
    const inner: array<bv32>
    const innerF: array<bv32>

    ghost predicate Valid()
      reads this, inner, innerF
    {
      inner.Length == 32 && innerF.Length == 32 && inner != innerF && inner[0] == 0 && innerF[0] == 0
    }

    /** All registers 0. */
    constructor ()
      ensures Valid() && fresh(inner) && fresh(innerF)
      ensures inner[..] == seq(32, _ => 0) && innerF[..] == seq(32, _ => 0)
    {
      inner := new bv32[32](_ => 0);
      innerF := new bv32[32](_ => 0);
    }

    method Get(id: RegId) returns (value: bv32)
      requires Valid()
      ensures value == Isa.GetReg(inner[..], id)
    {
      Isa.RegIndex(id);
      value := inner[id as int];
    }

    method GetF(id: RegId) returns (value: bv32)
      requires Valid()
      ensures value == Isa.GetReg(innerF[..], id)
    {
      Isa.RegIndex(id);
      value := innerF[id as int];
    }

    /** Writes to register 0 are dropped. */
    method Set(id: RegId, value: bv32)
      requires Valid()
      modifies inner
      ensures Valid() && inner[..] == Isa.SetReg(old(inner[..]), id, value)
    {
      if id != 0 {
        Isa.RegIndex(id);
        inner[id as int] := value;
      }
    }

    method SetF(id: RegId, value: bv32)
      requires Valid()
      modifies innerF
      ensures Valid() && innerF[..] == Isa.SetReg(old(innerF[..]), id, value)
    {
      if id != 0 {
        Isa.RegIndex(id);
        innerF[id as int] := value;
      }
    }

    method SetSp(value: bv32)
      requires Valid()
      modifies inner
      ensures Valid() && inner[..] == old(inner[..])[2 := value]
    {
      inner[2] := value;
    }

    method SetHp(value: bv32)
      requires Valid()
      modifies inner
      ensures Valid() && inner[..] == old(inner[..])[4 := value]
    {
      inner[4] := value;
    }
  }
}
