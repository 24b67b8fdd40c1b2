/** The two-bit branch predictor (core_sim/src/branch_predictor.rs) and the branch statistics of
    the CPU (BranchStat in core_sim/src/cpu.rs). */
module BranchPredictor {
  const NUM_COUNTERS: nat := 64

  datatype Counter = StronglyUntaken | WeaklyUntaken | WeaklyTaken | StronglyTaken {
    function Next(): Counter {
      match this
      case StronglyUntaken => WeaklyUntaken
      case WeaklyUntaken => WeaklyTaken
      case WeaklyTaken => StronglyTaken
      case StronglyTaken => StronglyTaken
    }

    function Prev(): Counter {
      match this
      case StronglyUntaken => StronglyUntaken
      case WeaklyUntaken => StronglyUntaken
      case WeaklyTaken => WeaklyUntaken
      case StronglyTaken => WeaklyTaken
    }
  }

  /** A table of counters; addresses share a counter when they agree modulo its size. */
  type Table = s: seq<Counter> | |s| > 0 witness [WeaklyTaken]

  function Predict(s: Table, addr: nat): bool {
    var c := s[addr % |s|];
    c == StronglyTaken || c == WeaklyTaken
  }

  function Update(s: Table, addr: nat, taken: bool): (r: Table)
    ensures |r| == |s|
  {
    var i := addr % |s|;
    s[i := if taken then s[i].Next() else s[i].Prev()]
  }

  function Fresh(n: nat): (s: Table)
    requires n > 0
    ensures |s| == n
  {
    seq(n, _ => WeaklyTaken)
  }

  class BranchPredictor {
    var inner: Table

    constructor ()
      ensures inner == Fresh(NUM_COUNTERS)
    {
      inner := Fresh(NUM_COUNTERS);
    }

    method PredictAt(addr: nat) returns (taken: bool)
      ensures taken == Predict(inner, addr)
    {
      var state := inner[addr % |inner|];
      taken := state == StronglyTaken || state == WeaklyTaken;
    }

    method UpdateState(addr: nat, result: bool)
      modifies this
      ensures inner == Update(old(inner), addr, result)
    {
      var i := addr % |inner|;
      if result {
        inner := inner[i := inner[i].Next()];
      } else {
        inner := inner[i := inner[i].Prev()];
      }
    }
  }

  /** Branches by outcome and prediction: `ut` counts the untaken ones predicted taken. */
  datatype BranchStat = BranchStat(tt: nat, tu: nat, ut: nat, uu: nat) {
    function Count(predicted: bool, actual: bool): BranchStat {
      if predicted then
        if actual then this.(tt := tt + 1) else this.(ut := ut + 1)
      else
        if actual then this.(tu := tu + 1) else this.(uu := uu + 1)
    }

    function Taken(): nat { tt + tu }
    function Untaken(): nat { ut + uu }
    function Mispredicted(): nat { tu + ut }
  }

  // ---- Runs ----

  datatype Branch = Branch(addr: nat, taken: bool)
  datatype State = State(table: Table, stat: BranchStat)

  /** What executing one branch does to predictor and statistics. */
  function Step(s: State, b: Branch): State {
    State(Update(s.table, b.addr, b.taken), s.stat.Count(Predict(s.table, b.addr), b.taken))
  }

  function Start(n: nat): State
    requires n > 0
  {
    State(Fresh(n), BranchStat(0, 0, 0, 0))
  }

  function Run(s: State, bs: seq<Branch>): (r: State)
    ensures |r.table| == |s.table|
  {
    if bs == [] then s else Step(Run(s, bs[..|bs| - 1]), bs[|bs| - 1])
  }

  /** How many taken branches a counter can still mispredict, and how many untaken ones. */
  function Reluctance(c: Counter): nat { match c case StronglyUntaken => 2 case WeaklyUntaken => 1 case _ => 0 }
  function Eagerness(c: Counter): nat { match c case StronglyTaken => 2 case WeaklyTaken => 1 case _ => 0 }

  function Total(s: seq<Counter>, f: Counter -> nat): nat {
    if s == [] then 0 else f(s[0]) + Total(s[1..], f)
  }

  lemma {:induction false} TotalUpdate(s: seq<Counter>, f: Counter -> nat, i: nat, c: Counter)
    requires i < |s|
    ensures Total(s[i := c], f) == Total(s, f) - f(s[i]) + f(c)
  {
    if i == 0 {
      assert s[0 := c][1..] == s[1..];
    } else {
      TotalUpdate(s[1..], f, i - 1, c);
      assert s[i := c][1..] == s[1..][i - 1 := c];
    }
  }

  /** The potential argument: predictions that fail are paid for by branches of the other outcome. */
  ghost predicate Paid(s: State, credit: nat) {
    && s.stat.tu + Total(s.table, Reluctance) <= s.stat.Untaken()
    && s.stat.ut + Total(s.table, Eagerness) <= s.stat.Taken() + credit
  }

  lemma StepPaid(s: State, b: Branch, credit: nat)
    requires Paid(s, credit)
    ensures Paid(Step(s, b), credit)
  {
    var i := b.addr % |s.table|;
    var c := if b.taken then s.table[i].Next() else s.table[i].Prev();
    TotalUpdate(s.table, Reluctance, i, c);
    TotalUpdate(s.table, Eagerness, i, c);
  }

  lemma {:induction false} FreshTotals(n: nat)
    ensures var s := seq(n, _ => WeaklyTaken); Total(s, Reluctance) == 0 && Total(s, Eagerness) == n
  {
    if n > 0 {
      FreshTotals(n - 1);
      assert seq(n, _ => WeaklyTaken)[1..] == seq(n - 1, _ => WeaklyTaken);
    }
  }

  lemma StartPaid(n: nat)
    requires n > 0
    ensures Paid(Start(n), n)
  {
    FreshTotals(n);
  }

  lemma PaidBound(s: State, credit: nat)
    requires Paid(s, credit)
    ensures s.stat.Mispredicted() <= 2 * s.stat.Untaken()
    ensures s.stat.Mispredicted() <= 2 * s.stat.Taken() + credit
  {
  }

  /** Main result: for every sequence of branches and any sharing of counters, mispredictions are
      at most twice the untaken branches, and at most twice the taken ones plus the table size. */
  lemma {:induction false} MispredictionBound(n: nat, bs: seq<Branch>)
    requires n > 0
    ensures Paid(Run(Start(n), bs), n)
    ensures var s := Run(Start(n), bs).stat;
            s.Mispredicted() <= 2 * s.Untaken() && s.Mispredicted() <= 2 * s.Taken() + n
  {
    hide Paid, Step, Start;
    if bs == [] {
      StartPaid(n);
    } else {
      MispredictionBound(n, bs[..|bs| - 1]);
      StepPaid(Run(Start(n), bs[..|bs| - 1]), bs[|bs| - 1], n);
    }
    PaidBound(Run(Start(n), bs), n);
  }

  /** Untaken and taken in turn at one address. */
  function Alternating(k: nat): (bs: seq<Branch>)
    ensures |bs| == 2 * k
  {
    if k == 0 then [] else Alternating(k - 1) + [Branch(0, false), Branch(0, true)]
  }

  /** The first bound is attained: every branch of an alternating run is mispredicted. */
  lemma {:induction false} FirstBoundTight(n: nat, k: nat)
    requires n > 0
    ensures var s := Run(Start(n), Alternating(k));
            s.stat == BranchStat(0, k, k, 0) && s.table[0] == WeaklyTaken
  {
    if k > 0 {
      FirstBoundTight(n, k - 1);
      var bs, prefix := Alternating(k), Alternating(k - 1);
      assert bs[..|bs| - 1] == prefix + [Branch(0, false)];
      assert (prefix + [Branch(0, false)])[..|prefix|] == prefix;
    }
  }

  function OncePerSlot(k: nat): (bs: seq<Branch>)
    ensures |bs| == k
  {
    if k == 0 then [] else OncePerSlot(k - 1) + [Branch(k - 1, false)]
  }

  /** The second bound is attained: one untaken branch per slot mispredicts each time. */
  lemma {:induction false} SecondBoundTight(n: nat, k: nat)
    requires n > 0 && k <= n
    ensures var s := Run(Start(n), OncePerSlot(k));
            s.stat == BranchStat(0, 0, k, 0) && forall i :: k <= i < n ==> s.table[i] == WeaklyTaken
  {
    if k > 0 {
      SecondBoundTight(n, k - 1);
      assert OncePerSlot(k)[..k - 1] == OncePerSlot(k - 1);
      var s := Run(Start(n), OncePerSlot(k - 1));
      SlotOf(n, k - 1);
      assert Run(Start(n), OncePerSlot(k)) == Step(s, Branch(k - 1, false));
    }
  }

  lemma SlotOf(n: nat, i: nat)
    requires i < n
    ensures i % n == i
  {
  }

  // ---- What is predicted ----

  /** Reference: a counter from 0 to 3 that starts at 2 and follows the outcomes of the branches
      that share slot `slot` of n. */
  function Level(bs: seq<Branch>, slot: nat, n: nat): (c: nat)
    requires n > 0
    ensures c <= 3
  {
    if bs == [] then 2
    else
      var c, last := Level(bs[..|bs| - 1], slot, n), bs[|bs| - 1];
      if last.addr % n != slot then c
      else if last.taken then (if c < 3 then c + 1 else 3)
      else if c > 0 then c - 1 else 0
  }

  function Height(c: Counter): nat {
    match c case StronglyUntaken => 0 case WeaklyUntaken => 1 case WeaklyTaken => 2 case StronglyTaken => 3
  }

  lemma {:induction false} TableLevels(n: nat, bs: seq<Branch>, slot: nat)
    requires slot < n
    ensures Height(Run(Start(n), bs).table[slot]) == Level(bs, slot, n)
  {
    if bs != [] { TableLevels(n, bs[..|bs| - 1], slot); }
  }

  /** Main result: after every history, the prediction for an address is taken exactly when the
      counter of the branches sharing its slot is at least 2. */
  lemma PredictsByLevel(n: nat, bs: seq<Branch>, addr: nat)
    requires n > 0
    ensures Predict(Run(Start(n), bs).table, addr) <==> Level(bs, addr % n, n) >= 2
  {
    hide Run, Level;
    TableLevels(n, bs, addr % n);
  }

  function TakenCount(bs: seq<Branch>): nat {
    if bs == [] then 0 else TakenCount(bs[..|bs| - 1]) + if bs[|bs| - 1].taken then 1 else 0
  }

  /** How many branches went against their counter. */
  function Surprises(bs: seq<Branch>, n: nat): nat
    requires n > 0
  {
    if bs == [] then 0
    else
      var before, last := bs[..|bs| - 1], bs[|bs| - 1];
      Surprises(before, n) + if last.taken != (Level(before, last.addr % n, n) >= 2) then 1 else 0
  }

  /** The statistics count the outcomes and the branches that went against their counter. */
  lemma {:induction false} StatisticsCount(n: nat, bs: seq<Branch>)
    requires n > 0
    ensures var s := Run(Start(n), bs).stat;
            s.Taken() == TakenCount(bs) && s.Taken() + s.Untaken() == |bs| && s.Mispredicted() == Surprises(bs, n)
  {
    hide Level, Predict, Update;
    if bs != [] {
      StatisticsCount(n, bs[..|bs| - 1]);
      PredictsByLevel(n, bs[..|bs| - 1], bs[|bs| - 1].addr);
    }
  }
}
