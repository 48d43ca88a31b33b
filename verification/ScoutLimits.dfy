/** Rows for which the shuffles decide: some orders yield a scout, others leave medium short. */
module ScoutLimits {
  import opened Prelude
  import opened Finite
  import opened Quotas
  import opened Scout
  import opened ScoutShortage

  /** Thirty hard rows of different contests, two of contest 100 and two of contest 200. */
  function HardRow(i: nat): Row { Row(i, Hard, if i < 30 then i else if i < 32 then 100 else 200) }

  /** Twenty-two medium rows of further contests, and two of contest 100. */
  function MediumRow(j: nat): Row { Row(1000 + j, Medium, if j < 22 then 300 + j else 100) }

  /** Eight easy rows of contests of their own. */
  function EasyRow(k: nat): Row { Row(2000 + k, Easy, 400 + k) }

  function RowAt(p: Problem): Row {
    if p < 34 then HardRow(p)
    else if p < 1000 then MediumRow(0)
    else if p < 2000 then MediumRow(p - 1000)
    else EasyRow(p - 2000)
  }

  function Rows(): (m: map<Problem, Row>)
    ensures forall p: Problem :: p in m <==> p < 34 || 1000 <= p < 1024 || 2000 <= p < 2008
    ensures forall p: Problem :: p in m ==> m[p] == RowAt(p)
  {
    map p: Problem | p < 2008 && (p < 34 || 1000 <= p < 1024 || 2000 <= p) :: RowAt(p)
  }

  function HardRows(n: nat): (s: seq<Row>)
    ensures |s| == n && forall i :: 0 <= i < n ==> s[i] == HardRow(i)
  {
    if n == 0 then [] else HardRows(n - 1) + [HardRow(n - 1)]
  }

  function MediumRows(n: nat): (s: seq<Row>)
    ensures |s| == n && forall j :: 0 <= j < n ==> s[j] == MediumRow(j)
  {
    if n == 0 then [] else MediumRows(n - 1) + [MediumRow(n - 1)]
  }

  function EasyRows(n: nat): (s: seq<Row>)
    ensures |s| == n && forall k :: 0 <= k < n ==> s[k] == EasyRow(k)
  {
    if n == 0 then [] else EasyRows(n - 1) + [EasyRow(n - 1)]
  }

  lemma {:induction false} EasyCount(n: nat, contest: nat)
    requires n <= 8
    ensures CountContest(EasyRows(n), contest) == if 400 <= contest < 400 + n then 1 else 0
  {
    if n > 0 {
      hide CountContest;
      EasyCount(n - 1, contest);
      CountNext(EasyRows(n - 1), EasyRow(n - 1), contest);
    }
  }

  lemma {:induction false} HardCount(n: nat, contest: nat)
    requires n <= 30
    ensures CountContest(HardRows(n), contest) == if contest < n then 1 else 0
  {
    if n > 0 {
      HardCount(n - 1, contest);
      CountNext(HardRows(n - 1), HardRow(n - 1), contest);
    }
  }

  lemma {:induction false} MediumCount(n: nat, contest: nat)
    requires n <= 22
    ensures CountContest(MediumRows(n), contest) == if 300 <= contest < 300 + n then 1 else 0
  {
    if n > 0 {
      hide CountContest;
      MediumCount(n - 1, contest);
      CountNext(MediumRows(n - 1), MediumRow(n - 1), contest);
    }
  }

  lemma CountTwoMore(rows: seq<Row>, r: Row, s: Row, contest: nat)
    ensures CountContest(rows + [r, s], contest)
         == CountContest(rows, contest)
            + (if r.contest == contest then 1 else 0) + (if s.contest == contest then 1 else 0)
  {
    assert rows + [r, s] == rows + [r] + [s];
    CountNext(rows, r, contest);
    CountNext(rows + [r], s, contest);
  }

  ghost predicate HardTally(choice: seq<Row>, pair: nat) {
    forall c :: CountContest(choice, c) == if c < 30 then 1 else if c == pair then 2 else 0
  }

  lemma HardTallies(choice: seq<Row>, k: nat)
    requires k == 30 || k == 32
    requires choice == HardRows(30) + [HardRow(k), HardRow(k + 1)]
    ensures HardTally(choice, HardRow(k).contest)
  {
    hide HardRows, CountContest;
    forall c ensures CountContest(choice, c) == if c < 30 then 1 else if c == HardRow(k).contest then 2 else 0 {
      HardCount(30, c);
      CountTwoMore(HardRows(30), HardRow(k), HardRow(k + 1), c);
    }
  }

  /** The thirty spread hard rows with either pair are a legitimate choice. */
  lemma HardChoice(choice: seq<Row>, k: nat)
    requires k == 30 || k == 32
    requires choice == HardRows(30) + [HardRow(k), HardRow(k + 1)]
    ensures IsChoice(Rows(), Rows().Keys, Hard, [], choice, 32)
  {
    hide HardRows, CountContest, HardTally, Rows;
    HardTallies(choice, k);
    TallyWithinQuota(choice, HardRow(k).contest);
    forall i | 0 <= i < 32
      ensures choice[i].problem == (if i < 30 then i else k + i - 30) && choice[i] == RowAt(choice[i].problem)
    {}
  }

  lemma TallyWithinQuota(choice: seq<Row>, pair: nat)
    requires HardTally(choice, pair)
    ensures forall c :: CountContest([], c) + CountContest(choice, c) <= QUOTA
  {
    forall c ensures CountContest([], c) + CountContest(choice, c) <= QUOTA {
      assert CountContest(choice, c) == if c < 30 then 1 else if c == pair then 2 else 0;
    }
  }

  lemma MediumFits(hard: seq<Row>, choice: seq<Row>)
    requires HardTally(hard, 200)
    requires choice == MediumRows(22) + [MediumRow(22), MediumRow(23)]
    ensures IsChoice(Rows(), Rows().Keys, Medium, hard, choice, 24)
  {
    hide MediumRows, CountContest, Rows;
    forall c ensures CountContest(hard, c) + CountContest(choice, c) <= QUOTA {
      assert CountContest(hard, c) == if c < 30 then 1 else if c == 200 then 2 else 0;
      MediumCount(22, c);
      CountTwoMore(MediumRows(22), MediumRow(22), MediumRow(23), c);
    }
    hide HardTally;
    forall j | 0 <= j < 24 ensures choice[j].problem == 1000 + j && choice[j] == RowAt(1000 + j) {}
  }

  lemma {:induction false} MemberCounts(rows: seq<Row>, r: Row)
    requires r in rows
    ensures CountContest(rows, r.contest) > 0
  {
    var n := |rows| - 1;
    if rows[n] != r {
      assert rows == rows[..n] + [rows[n]];
      MemberCounts(rows[..n], r);
    }
  }

  lemma MediumIsExhausted(hard: seq<Row>)
    requires HardTally(hard, 100)
    ensures Exhausted(Rows(), Rows().Keys, Medium, hard, 24)
  {
    hide MediumRows, CountContest, Rows;
    assert CountContest(hard, 100) == 2;
    hide HardTally;
    forall choice ensures !IsChoice(Rows(), Rows().Keys, Medium, hard, choice, 24) {
      if IsChoice(Rows(), Rows().Keys, Medium, hard, choice, 24) {
        assert CountContest(hard, 100) + CountContest(choice, 100) <= QUOTA;
        forall r | r in choice ensures r in MediumRows(22) {
          MemberCounts(choice, r);
          assert InPool(Rows(), Rows().Keys, Medium, r);
          assert MediumRows(22)[r.problem - 1000] == r;
        }
        AtMost(choice, MediumRows(22));
      }
    }
  }

  lemma AtMost(a: seq<Row>, b: seq<Row>)
    requires NoRepeats(a) && NoRepeats(b) && forall r :: r in a ==> r in b
    ensures |a| <= |b|
  {
    MembersCount(a);
    MembersCount(b);
    SubsetSize(set r | r in a, set r | r in b);
  }

  lemma EasyFits(hard: seq<Row>, medium: seq<Row>, choice: seq<Row>)
    requires HardTally(hard, 200) && medium == MediumRows(22) + [MediumRow(22), MediumRow(23)] && choice == EasyRows(8)
    ensures IsChoice(Rows(), Rows().Keys, Easy, hard + medium, choice, 8)
  {
    hide MediumRows, EasyRows, CountContest, Rows;
    forall c ensures CountContest(hard + medium, c) + CountContest(choice, c) <= QUOTA {
      assert CountContest(hard, c) == if c < 30 then 1 else if c == 200 then 2 else 0;
      MediumCount(22, c);
      CountTwoMore(MediumRows(22), MediumRow(22), MediumRow(23), c);
      CountConcat(hard, medium, c);
      EasyCount(8, c);
    }
    hide HardTally;
    forall k | 0 <= k < 8 ensures choice[k].problem == 2000 + k && choice[k] == RowAt(2000 + k) {}
  }

  /** On these rows some shuffles yield a scout and others end with medium short. */
  lemma ShortageDependsOnShuffle()
    ensures Keyed(Rows())
    ensures exists o :: AreShuffles(Rows(), Rows().Keys, o) && Outcome(o).Ok?
    ensures exists o :: AreShuffles(Rows(), Rows().Keys, o) && Outcome(o) == Err(Insufficient(Medium))
  {
    hide HardRows, MediumRows, EasyRows, HardTally, IsChoice, Exhausted, Greedy, IsGroup, CountContest, Rows;
    var first := HardRows(30) + [HardRow(30), HardRow(31)];
    var second := HardRows(30) + [HardRow(32), HardRow(33)];
    var medium := MediumRows(22) + [MediumRow(22), MediumRow(23)];
    HardChoice(first, 30);
    HardChoice(second, 32);
    HardTallies(first, 30);
    HardTallies(second, 32);
    MediumIsExhausted(first);
    MediumFits(second, medium);
    EasyFits(second, medium, EasyRows(8));
    var p := OrdersFor(Rows(), Rows().Keys, second, Some(medium), Some(EasyRows(8)));
    assert Outcome(p).Ok?;
    var o := OrdersFor(Rows(), Rows().Keys, first, None, None);
    HardPlaces(Rows(), Rows().Keys, first);
    ExhaustedEnds(Rows(), Rows().Keys, Medium, first, o.medium, 24);
    assert Outcome(o) == Err(Insufficient(Medium));
  }
}
