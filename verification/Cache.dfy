/** The direct-mapped cache model (core_sim/src/cache.rs): it stores tags only. */
module Cache {
  import opened Wrappers
  import Arithmetic

  const CACHE_NUM_LINES: nat := 16384

  /** Word addresses come from 32-bit registers. */
  type Addr = a: nat | a < 0x1_0000_0000

  /** The tags, one per line; every tag starts at 0. */
  type Lines = s: seq<nat> | |s| > 0 witness [0]

  function Block(addr: Addr): nat { addr / 4 }
  function Line(addr: Addr, n: nat): nat
    requires n > 0
    ensures Line(addr, n) < n
  {
    Block(addr) % n
  }

  /** The tag, cut to 32 bits. */
  function Tag(addr: Addr, n: nat): nat
    requires n > 0
  {
    Block(addr) / n % 0x1_0000_0000
  }

  predicate Hits(s: Lines, addr: Addr) { s[Line(addr, |s|)] == Tag(addr, |s|) }

  function After(s: Lines, addr: Addr): (r: Lines)
    ensures |r| == |s|
  {
    s[Line(addr, |s|) := Tag(addr, |s|)]
  }

  function Empty(n: nat): (s: Lines)
    requires n > 0
    ensures |s| == n
  {
    seq(n, _ => 0)
  }

  class Cache {
    var inner: Lines

    constructor ()
      ensures inner == Empty(CACHE_NUM_LINES)
    {
      inner := Empty(CACHE_NUM_LINES);
    }

    /** `access_cache`: overwrites the tag on a miss. */
    method AccessCache(addr: Addr) returns (hit: bool)
      modifies this
      ensures hit == Hits(old(inner), addr)
      ensures inner == After(old(inner), addr)
    {
      var line, tag := Line(addr, |inner|), Tag(addr, |inner|);
      if inner[line] != tag {
        inner := inner[line := tag];
        hit := false;
      } else {
        hit := true;
      }
    }
  }

  // ---- Every access history ----

  function Run(s: Lines, h: seq<Addr>): (r: Lines)
    ensures |r| == |s|
  {
    if h == [] then s else After(Run(s, h[..|h| - 1]), h[|h| - 1])
  }

  /** Reference: the block last accessed through a line. */
  function LastBlock(h: seq<Addr>, line: nat, n: nat): Option<nat>
    requires n > 0
  {
    if h == [] then None
    else if Line(h[|h| - 1], n) == line then Some(Block(h[|h| - 1]))
    else LastBlock(h[..|h| - 1], line, n)
  }

  /** Within the address range, a line and a tag identify a block. */
  lemma TagIdentifies(a: Addr, block: nat, n: nat)
    requires n > 0 && block < 0x1_0000_0000 && block % n == Line(a, n)
    ensures block / n % 0x1_0000_0000 == Tag(a, n) <==> block == Block(a)
  {
    assert 0 <= block / n <= block by { Arithmetic.ShrinkByDivision(block, n); }
    assert 0 <= Block(a) / n <= Block(a) by { Arithmetic.ShrinkByDivision(Block(a), n); }
    if block / n == Block(a) / n {
      assert block == n * (block / n) + block % n;
      assert Block(a) == n * (Block(a) / n) + Block(a) % n;
    }
  }

  lemma {:induction false} LastBlockInLine(h: seq<Addr>, line: nat, n: nat)
    requires n > 0
    ensures LastBlock(h, line, n).Some? ==>
              LastBlock(h, line, n).value % n == line && LastBlock(h, line, n).value < 0x1_0000_0000
  {
    if h != [] { LastBlockInLine(h[..|h| - 1], line, n); }
  }

  lemma {:induction false} StoredTag(n: nat, h: seq<Addr>, line: nat)
    requires 0 < n && line < n
    ensures Run(Empty(n), h)[line] ==
            match LastBlock(h, line, n) case None => 0 case Some(b) => b / n % 0x1_0000_0000
  {
    if h != [] { StoredTag(n, h[..|h| - 1], line); }
  }

  /** Main result: after every history, an access hits exactly when the latest access through its
      line was to the same block, or there was none and the tag is 0. */
  lemma HitsLatestBlock(n: nat, h: seq<Addr>, addr: Addr)
    requires n > 0
    ensures Hits(Run(Empty(n), h), addr) <==>
            match LastBlock(h, Line(addr, n), n) case None => Tag(addr, n) == 0 case Some(b) => b == Block(addr)
  {
    hide Tag;
    var line := Line(addr, n);
    StoredTag(n, h, line);
    LastBlockInLine(h, line, n);
    if LastBlock(h, line, n).Some? { TagIdentifies(addr, LastBlock(h, line, n).value, n); }
  }
}
