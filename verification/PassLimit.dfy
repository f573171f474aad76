/** How many replay passes a dump can need: no more than the foreign keys are deep,
    whatever the number of rows, and without end when a table refers to itself. */
module PassLimit {
  import opened Options
  import opened Values
  import opened RelationshipIndex
  import opened ProvenRows
  import opened DumpRun

  // ---------------------------------------------------------------- ranked tables

  /** Foreign keys lead to tables of smaller rank, and no table with a foreign key has a
      rank above `top`. */
  ghost predicate Ranked(ctx: Context, rank: string -> nat, top: nat) {
    forall t, i :: t in ctx.schemas && 0 <= i < |ctx.schemas[t].foreignKeys| ==>
      rank(ctx.schemas[t].foreignKeys[i].parentTable) < rank(t) <= top
  }

  /** The slots of tables up to rank k are the same. */
  ghost predicate SameUpTo(rank: string -> nat, k: nat, index: Index, index': Index) {
    forall slot: Slot :: rank(slot.table) <= k ==> Get(index, slot) == Get(index', slot)
  }

  /** Rows up to rank k still wait for a parent. */
  ghost predicate Stuck(ctx: Context, rank: string -> nat, k: nat, index: Index, rows: seq<Row>) {
    forall row :: row in rows && rank(row.table) <= k ==> VerdictOn(ctx, row, index).Pending?
  }

  /** The verdict depends on the slots that the row asks for. */
  lemma SameAnswers(ctx: Context, row: Row, index: Index, index': Index)
    requires forall fk :: fk in ForeignKeys(ctx, row) && Active(fk, row) ==>
      Get(index, Asks(fk, row)) == Get(index', Asks(fk, row))
    ensures VerdictOn(ctx, row, index) == VerdictOn(ctx, row, index')
  {
    var fks := ForeignKeys(ctx, row);
    forall fk | fk in fks
      ensures Missing(fk, row, index) <==> Missing(fk, row, index')
      ensures Ambiguous(fk, row, index) <==> Ambiguous(fk, row, index')
      ensures Contribution(fk, row, index) == Contribution(fk, row, index')
    {
    }
    forall n
      ensures n in Proofs(fks, row, index) <==> n in Proofs(fks, row, index')
    {
      assert n in Proofs(fks, row, index) <==> n in Direct(row) || exists fk :: fk in fks && n in Contribution(fk, row, index);
      assert n in Proofs(fks, row, index') <==> n in Direct(row) || exists fk :: fk in fks && n in Contribution(fk, row, index');
    }
    assert Proofs(fks, row, index) == Proofs(fks, row, index');
  }

  lemma RanksBelow(ctx: Context, rank: string -> nat, top: nat, row: Row, fk: ForeignKey)
    requires Ranked(ctx, rank, top) && fk in ForeignKeys(ctx, row)
    ensures rank(fk.parentTable) < rank(row.table) <= top
  {
    var i :| 0 <= i < |ctx.schemas[row.table].foreignKeys| && ctx.schemas[row.table].foreignKeys[i] == fk;
  }

  /** A row up to rank k + 1 does not notice changes above rank k. */
  lemma NotNoticed(ctx: Context, rank: string -> nat, top: nat, k: nat, row: Row, index: Index, index': Index)
    requires Ranked(ctx, rank, top) && rank(row.table) <= k + 1 && SameUpTo(rank, k, index, index')
    ensures VerdictOn(ctx, row, index) == VerdictOn(ctx, row, index')
  {
    hide VerdictOn, Ranked;
    forall fk | fk in ForeignKeys(ctx, row) && Active(fk, row)
      ensures Get(index, Asks(fk, row)) == Get(index', Asks(fk, row))
    {
      RanksBelow(ctx, rank, top, row, fk);
    }
    SameAnswers(ctx, row, index, index');
  }

  /** What a pass that began with st, when all rows up to rank k were stuck, has done so
      far: it has changed nothing up to rank k, and rows up to rank k + 1 that it passed
      on are stuck. */
  ghost predicate Above(ctx: Context, rank: string -> nat, k: nat, st: State, waiting: seq<Row>, p: Pass) {
    && SameUpTo(rank, k, st.index, p.st.index)
    && (forall row :: row in p.next ==> row in waiting)
    && Stuck(ctx, rank, k + 1, p.st.index, p.next)
    && (p.progress ==> exists row :: row in waiting && rank(row.table) > k)
  }

  lemma AboveOneMore(ctx: Context, rank: string -> nat, top: nat, k: nat, st: State, waiting: seq<Row>, p: Pass, row: Row)
    requires Ranked(ctx, rank, top) && Stuck(ctx, rank, k, st.index, waiting) && row in waiting
    requires Above(ctx, rank, k, st, waiting, p)
    ensures Above(ctx, rank, k, st, waiting, ReplayOne(ctx, p, row))
  {
    hide VerdictOn, Ranked, Enter;
    var v := VerdictOn(ctx, row, p.st.index);
    if rank(row.table) <= k {
      NotNoticed(ctx, rank, top, k, row, st.index, p.st.index);
    } else if v.Accepted? {
      var index' := Enter(ctx, p.st.index, Kept(row, v.n));
      OtherTables(ctx, p.st.index, Kept(row, v.n), rank, k);
      forall other | other in p.next && rank(other.table) <= k + 1
        ensures VerdictOn(ctx, other, index').Pending?
      {
        NotNoticed(ctx, rank, top, k, other, p.st.index, index');
      }
    }
  }

  lemma OtherTables(ctx: Context, index: Index, kept: Kept, rank: string -> nat, k: nat)
    requires rank(kept.row.table) > k
    ensures SameUpTo(rank, k, index, Enter(ctx, index, kept))
  {
    hide Enter;
    assert Extended(ctx, index, kept, Enter(ctx, index, kept));
  }

  lemma NothingAbove(ctx: Context, rank: string -> nat, k: nat, st: State, waiting: seq<Row>)
    ensures Above(ctx, rank, k, st, waiting, Pass(st, [], false))
  {
  }

  lemma {:induction false} PassAbove(ctx: Context, rank: string -> nat, top: nat, k: nat, st: State, waiting: seq<Row>, i: nat)
    requires Ranked(ctx, rank, top) && Stuck(ctx, rank, k, st.index, waiting) && i <= |waiting|
    ensures Above(ctx, rank, k, st, waiting, PassOver(ctx, st, waiting[..i]))
  {
    hide Ranked, Stuck, Above, ReplayOne, PassOver;
    if i == 0 {
      NothingPassed(ctx, st);
      NothingAbove(ctx, rank, k, st, waiting);
    } else {
      PassAbove(ctx, rank, top, k, st, waiting, i - 1);
      PassStep(ctx, st, waiting, i - 1);
      AboveOneMore(ctx, rank, top, k, st, waiting, PassOver(ctx, st, waiting[..i - 1]), waiting[i - 1]);
    }
  }

  /** After k passes all rows up to rank k are stuck, so after `top` passes one more ends
      the replay. */
  lemma {:induction false} RankedReplay(ctx: Context, rank: string -> nat, top: nat, k: nat, st: State, waiting: seq<Row>,
                                        passes: nat)
    requires Ranked(ctx, rank, top) && AllWaiters(ctx, waiting) && Stuck(ctx, rank, k, st.index, waiting)
    requires k <= top < k + passes
    ensures !ReplayFrom(ctx, st, waiting, passes).1
    decreases passes
  {
    hide Ranked, Stuck, PassOver, HasParents;
    if waiting != [] {
      var p := PassOver(ctx, st, waiting);
      PassAbove(ctx, rank, top, k, st, waiting, |waiting|);
      assert waiting[..|waiting|] == waiting;
      if p.progress {
        var row :| row in waiting && rank(row.table) > k;
        WaitersRanked(ctx, rank, top, row);
        RankedReplay(ctx, rank, top, k + 1, p.st, p.next, passes - 1);
      }
    }
  }

  lemma WaitersRanked(ctx: Context, rank: string -> nat, top: nat, row: Row)
    requires Ranked(ctx, rank, top) && HasParents(ctx, row)
    ensures 0 < rank(row.table) <= top
  {
    var fk :| fk in ForeignKeys(ctx, row) && Active(fk, row);
    RanksBelow(ctx, rank, top, row, fk);
  }

  /** With more passes than the highest rank the limit cannot strike, whatever the rows. */
  lemma RankedEnds(ctx: Context, rank: string -> nat, top: nat, rows: seq<Row>, passes: nat)
    requires Ranked(ctx, rank, top) && top < passes
    ensures !Filter(ctx, rows, passes).1
  {
    hide Ranked, ReadAll, ReplayFrom, HasParents;
    IndexedFacts(ctx, rows);
    var r := ReadAll(ctx, rows);
    forall row | row in r.waiting
      ensures rank(row.table) > 0
    {
      WaitersRanked(ctx, rank, top, row);
    }
    RankedReplay(ctx, rank, top, 0, Indexed(ctx, r.st), r.waiting, passes);
  }

  // ---------------------------------------------------------------- tables without a cycle

  /** Table t has a foreign key onto table u. */
  ghost predicate Refers(ctx: Context, t: string, u: string) {
    t in ctx.schemas && exists i :: 0 <= i < |ctx.schemas[t].foreignKeys| && ctx.schemas[t].foreignKeys[i].parentTable == u
  }

  /** Each table of the chain refers to the next. */
  ghost predicate TableChain(ctx: Context, chain: seq<string>) {
    |chain| >= 2 && forall i :: 0 <= i < |chain| - 1 ==> Refers(ctx, chain[i], chain[i + 1])
  }

  ghost predicate Leads(ctx: Context, t: string, u: string) {
    exists chain :: TableChain(ctx, chain) && chain[0] == t && chain[|chain| - 1] == u
  }

  /** No chain of foreign keys leads from a table back to it. */
  ghost predicate Acyclic(ctx: Context) {
    forall t :: !Leads(ctx, t, t)
  }

  ghost predicate Descends(ctx: Context, rank: string -> nat) {
    forall t, i :: t in ctx.schemas && 0 <= i < |ctx.schemas[t].foreignKeys| ==>
      rank(ctx.schemas[t].foreignKeys[i].parentTable) < rank(t)
  }

  /** The tables that chains from t lead to. */
  ghost function TablesBelow(ctx: Context, t: string): set<string> {
    set u | u in ctx.schemas && Leads(ctx, t, u)
  }

  /** Counting them gives ranks no higher than the number of tables. */
  ghost function CountedRank(ctx: Context): string -> nat {
    t => if t in ctx.schemas then 1 + |TablesBelow(ctx, t)| else 0
  }

  lemma Smaller(a: set<string>, b: set<string>, x: string)
    requires a <= b && x in b && x !in a
    ensures |a| < |b|
  {
    assert b - {x} == a + (b - {x} - a);
  }

  lemma OneFurther(ctx: Context, t: string, u: string)
    requires Refers(ctx, t, u)
    ensures Leads(ctx, t, u) && TablesBelow(ctx, u) <= TablesBelow(ctx, t)
  {
    hide Refers;
    assert TableChain(ctx, [t, u]);
    forall v | v in TablesBelow(ctx, u)
      ensures v in TablesBelow(ctx, t)
    {
      var chain :| TableChain(ctx, chain) && chain[0] == u && chain[|chain| - 1] == v;
      var longer := [t] + chain;
      forall i | 0 <= i < |longer| - 1
        ensures Refers(ctx, longer[i], longer[i + 1])
      {
        if i > 0 {
          assert Refers(ctx, chain[i - 1], chain[i]);
        }
      }
      assert TableChain(ctx, longer) && longer[0] == t && longer[|longer| - 1] == v;
    }
  }

  lemma CountedIsRanked(ctx: Context)
    requires Acyclic(ctx)
    ensures Ranked(ctx, CountedRank(ctx), |ctx.schemas|)
  {
    var counted := CountedRank(ctx);
    forall t, i | t in ctx.schemas && 0 <= i < |ctx.schemas[t].foreignKeys|
      ensures counted(ctx.schemas[t].foreignKeys[i].parentTable) < counted(t) <= |ctx.schemas|
    {
      var parent := ctx.schemas[t].foreignKeys[i].parentTable;
      OneFurther(ctx, t, parent);
      if parent in ctx.schemas {
        Smaller(TablesBelow(ctx, parent), TablesBelow(ctx, t), parent);
      }
      Smaller(TablesBelow(ctx, t), ctx.schemas.Keys, t);
      assert |ctx.schemas.Keys| == |ctx.schemas|;
    }
  }

  lemma {:induction false} RankDrops(ctx: Context, rank: string -> nat, chain: seq<string>)
    requires Descends(ctx, rank) && TableChain(ctx, chain)
    ensures rank(chain[|chain| - 1]) < rank(chain[0])
    decreases |chain|
  {
    assert Refers(ctx, chain[0], chain[1]);
    if |chain| > 2 {
      var rest := chain[1..];
      forall i | 0 <= i < |rest| - 1
        ensures Refers(ctx, rest[i], rest[i + 1])
      {
        assert Refers(ctx, chain[i + 1], chain[i + 2]);
      }
      RankDrops(ctx, rank, rest);
    }
  }

  /** No chain leads back exactly when the tables can be ranked so that every foreign key
      leads to a smaller rank. */
  lemma AcyclicIff(ctx: Context)
    ensures Acyclic(ctx) <==> exists rank: string -> nat :: Descends(ctx, rank)
  {
    if Acyclic(ctx) {
      CountedIsRanked(ctx);
      assert Descends(ctx, CountedRank(ctx));
    }
    forall rank: string -> nat, t | Descends(ctx, rank)
      ensures !Leads(ctx, t, t)
    {
      if Leads(ctx, t, t) {
        var chain :| TableChain(ctx, chain) && chain[0] == t && chain[|chain| - 1] == t;
        RankDrops(ctx, rank, chain);
      }
    }
  }

  /** If no chain of foreign keys leads back to its table, and there are fewer tables
      than passes, the limit cannot strike, however many rows there are. */
  lemma AcyclicEnds(ctx: Context, rows: seq<Row>, passes: nat)
    requires Acyclic(ctx) && |ctx.schemas| < passes
    ensures !Filter(ctx, rows, passes).1
  {
    hide Filter, Ranked, CountedRank;
    CountedIsRanked(ctx);
    RankedEnds(ctx, CountedRank(ctx), |ctx.schemas|, rows, passes);
  }

  // ---------------------------------------------------------------- a table that refers to itself

  const UP := ForeignKey("up", "t", "id")

  /** One table whose rows name their parent in the same table; 7 is a target. */
  function Chained(): Context {
    Context(map["t" := Schema([UP])], {7})
  }

  /** Row 0 has a number of its own; row i leads to row i - 1. */
  function Link(i: nat): Row {
    Row("t", if i == 0 then map["id" := Int(0), "seqno" := Int(7)] else map["id" := Int(i), "up" := Int(i - 1)], "", None)
  }

  /** The links from m down to j. */
  function Down(m: nat, j: nat): (rows: seq<Row>)
    requires j <= m + 1
    ensures |rows| == m + 1 - j && forall i :: 0 <= i < |rows| ==> rows[i] == Link(m - i)
  {
    seq(m + 1 - j, i requires 0 <= i < m + 1 - j => Link(m - i))
  }

  function IdSlot(i: nat): Slot {
    Slot("t", "id", Number(i as real))
  }

  /** The index knows the links up to j. */
  ghost predicate UpTo(index: Index, j: nat) {
    forall i: nat :: Get(index, IdSlot(i)) == if i <= j then Some(Seq(7)) else None
  }

  lemma LinkFacts(i: nat)
    ensures Proper(Chained(), Link(i)) && ForeignKeys(Chained(), Link(i)) == [UP]
    ensures HasParents(Chained(), Link(i)) <==> i > 0
    ensures i > 0 ==> Active(UP, Link(i)) && Asks(UP, Link(i)) == IdSlot(i - 1) && Direct(Link(i)) == {}
  {
    assert ForeignKeys(Chained(), Link(i)) == [UP];
    if i > 0 {
      assert UP in ForeignKeys(Chained(), Link(i)) && Active(UP, Link(i));
    }
  }

  lemma LinkVerdict(i: nat, j: nat, index: Index)
    requires i > 0 && UpTo(index, j)
    ensures VerdictOn(Chained(), Link(i), index) == if i <= j + 1 then Accepted(7) else Pending
  {
    LinkFacts(i);
    assert Get(index, IdSlot(i - 1)) == if i <= j + 1 then Some(Seq(7)) else None;
    var fks := ForeignKeys(Chained(), Link(i));
    if i <= j + 1 {
      assert HasProof(Chained(), Link(i));
      AllSayN(Chained(), Kept(Link(i), 7), index);
    } else {
      assert Missing(UP, Link(i), index) && UP in fks;
      assert forall fk :: fk in fks ==> fk == UP;
      assert Proofs(fks, Link(i), index) == {};
    }
  }

  /** Keeping link i adds its slot. */
  lemma EnterLink(index: Index, row: Row, i: nat)
    requires row.table == "t" && Lookup(row.fields, "id") == Int(i)
    requires forall k: nat :: Get(index, IdSlot(k)) == if k < i then Some(Seq(7)) else None
    ensures UpTo(Enter(Chained(), index, Kept(row, 7)), i)
  {
    hide Enter;
    var index' := Enter(Chained(), index, Kept(row, 7));
    assert Extended(Chained(), index, Kept(row, 7), index');
    assert Chained().schemas["t"].foreignKeys[0] == UP;
    forall k: nat
      ensures Get(index', IdSlot(k)) == if k <= i then Some(Seq(7)) else None
    {
      assert DemandedSlot(Chained(), IdSlot(k));
      assert Supplies(row, IdSlot(k)) <==> i as real == k as real;
      assert Get(index, IdSlot(k)) == if k < i then Some(Seq(7)) else None;
    }
  }

  /** A pass over rows that all wait passes them on. */
  lemma {:induction false} PassesOn(ctx: Context, st: State, waiting: seq<Row>, i: nat)
    requires i <= |waiting| && forall k :: 0 <= k < i ==> VerdictOn(ctx, waiting[k], st.index).Pending?
    ensures PassOver(ctx, st, waiting[..i]) == Pass(st, waiting[..i], false)
  {
    hide VerdictOn, PassOver, Enter;
    if i == 0 {
      NothingPassed(ctx, st);
    } else {
      PassesOn(ctx, st, waiting, i - 1);
      PassStep(ctx, st, waiting, i - 1);
      assert waiting[..i] == waiting[..i - 1] + [waiting[i - 1]];
    }
  }

  /** In the reversed chain a pass keeps the last link only. */
  lemma OneKept(st: State, m: nat, j: nat)
    requires UpTo(st.index, j) && j < m
    ensures var p := PassOver(Chained(), st, Down(m, j + 1));
      p.progress && p.next == Down(m, j + 2) && UpTo(p.st.index, j + 1)
  {
    hide VerdictOn, Enter, PassOver, UpTo;
    var waiting := Down(m, j + 1);
    var last := m - j - 1;
    forall k | 0 <= k < last
      ensures VerdictOn(Chained(), waiting[k], st.index).Pending?
    {
      LinkVerdict(m - k, j, st.index);
    }
    PassesOn(Chained(), st, waiting, last);
    PassStep(Chained(), st, waiting, last);
    assert waiting[..last + 1] == waiting;
    assert waiting[..last] == Down(m, j + 2);
    LinkVerdict(j + 1, j, st.index);
    LinkEntered(st.index, j);
  }

  lemma LinkEntered(index: Index, j: nat)
    requires UpTo(index, j)
    ensures UpTo(Enter(Chained(), index, Kept(Link(j + 1), 7)), j + 1)
  {
    EnterLink(index, Link(j + 1), j + 1);
  }

  lemma {:induction false} ChainReplay(st: State, m: nat, j: nat, passes: nat)
    requires UpTo(st.index, j) && j <= m
    ensures ReplayFrom(Chained(), st, Down(m, j + 1), passes).1 <==> m - j > passes
    decreases passes
  {
    hide PassOver, UpTo;
    if j < m && passes > 0 {
      OneKept(st, m, j);
      ChainReplay(PassOver(Chained(), st, Down(m, j + 1)).st, m, j + 1, passes - 1);
    }
  }

  lemma ReadWaiter(ctx: Context, waiting: seq<Row>, row: Row)
    requires Proper(ctx, row) && HasParents(ctx, row)
    ensures ReadOne(ctx, Reading(Empty(), waiting), row) == Reading(Empty(), waiting + [row])
  {
    hide VerdictOn;
    EmptyIndex(ctx, row);
  }

  lemma {:induction false} ChainRead(m: nat, i: nat)
    requires i <= m
    ensures ReadAll(Chained(), Down(m, 0)[..i]) == Reading(Empty(), Down(m, 0)[..i])
  {
    hide ReadOne, Proper, HasParents;
    var rows := Down(m, 0);
    if i > 0 {
      ChainRead(m, i - 1);
      assert rows[..i][..i - 1] == rows[..i - 1];
      assert rows[..i] == rows[..i - 1] + [rows[i - 1]];
      LinkFacts(m - (i - 1));
      ReadWaiter(Chained(), rows[..i - 1], rows[i - 1]);
    }
  }

  lemma RootVerdict()
    ensures VerdictOn(Chained(), Link(0), map[]) == Accepted(7)
  {
    LinkFacts(0);
    assert forall fk :: fk in ForeignKeys(Chained(), Link(0)) ==> fk == UP;
    assert Direct(Link(0)) == {7};
    AllSayN(Chained(), Kept(Link(0), 7), map[]);
  }

  lemma RootIndexed(accepted: seq<Kept>)
    requires accepted == [Kept(Link(0), 7)]
    ensures UpTo(IndexOf(Chained(), accepted), 0)
  {
    hide Enter;
    var k := accepted[0];
    LinkFacts(0);
    assert accepted[..0] == [];
    assert IndexOf(Chained(), accepted[..0]) == map[];
    assert AsIndexed(Chained(), k) == Stamped(k);
    assert Lookup(Stamped(k).fields, "id") == Int(0);
    EnterLink(map[], Stamped(k), 0);
  }

  /** A chain of m + 1 rows, children first: the limit strikes exactly when there are
      more links than passes. */
  lemma ChainLimit(m: nat, passes: nat)
    ensures Filter(Chained(), Down(m, 0), passes).1 <==> m > passes
  {
    hide VerdictOn, ReplayFrom, IndexOf, UpTo;
    var rows := Down(m, 0);
    ChainRead(m, m);
    assert rows[..m + 1] == rows;
    assert rows[..m + 1][..m] == rows[..m];
    LinkFacts(0);
    RootVerdict();
    var r := ReadAll(Chained(), rows);
    assert rows[..m] == Down(m, 1);
    assert r.waiting == Down(m, 1) && r.st.accepted == [Kept(Link(0), 7)];
    RootIndexed(r.st.accepted);
    ChainReplay(Indexed(Chained(), r.st), m, 0, passes);
  }
}
