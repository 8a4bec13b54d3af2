/**
 * Describing a statement's parameters: the rows the coordinator answers with,
 * put in position order, behind a cache of one entry.
 */
module DescribeParam {
  import opened Wrappers
  import opened Text

  // ----- the statement terminator

  predicate IsTerminator(c: char) {
    IsSpace(c) || c == ';'
  }

  /** What is left without the trailing run of terminators and whitespace, as a length. */
  function KeptLength(s: string): (n: nat)
    ensures n <= |s|
    ensures forall k :: n <= k < |s| ==> IsTerminator(s[k])
    ensures n > 0 ==> !IsTerminator(s[n - 1])
  {
    if s == [] || !IsTerminator(s[|s| - 1]) then |s| else KeptLength(s[..|s| - 1])
  }

  lemma {:induction false} KeptLengthIs(s: string, n: nat)
    requires n <= |s| && forall k :: n <= k < |s| ==> IsTerminator(s[k])
    ensures KeptLength(s[..n]) == KeptLength(s)
    decreases |s|
  {
    if n < |s| {
      assert s[..|s| - 1][..n] == s[..n];
      KeptLengthIs(s[..|s| - 1], n);
    } else {
      assert s[..n] == s;
    }
  }

  /** Trims, then strips one terminator at a time: the longest prefix that ends in neither. */
  method StripTrailingSemicolons(sql: string) returns (stripped: string)
    ensures stripped == sql[..KeptLength(sql)]
    ensures stripped <= sql && forall k :: |stripped| <= k < |sql| ==> sql[k] == ';' || IsSpace(sql[k])
    ensures stripped != [] ==> stripped[|stripped| - 1] != ';' && !IsSpace(stripped[|stripped| - 1])
  {
    hide KeptLength, IsTerminator, TrimTo;
    var n: nat := TrimTo(sql);
    TrimKeepsKept(sql);
    while n > 0 && sql[n - 1] == ';'
      invariant n <= |sql| && KeptLength(sql[..n]) == KeptLength(sql)
      invariant n > 0 ==> !IsSpace(sql[n - 1])
    {
      var m := TrimTo(sql[..n - 1]);
      SemicolonStripped(sql[..n]);
      assert sql[..n][..n - 1] == sql[..n - 1] && sql[..n - 1][..m] == sql[..m];
      n := m;
    }
    stripped := sql[..n];
    NothingToStrip(stripped);
    KeptIsStripped(sql);
  }

  lemma TrimKeepsKept(s: string)
    ensures KeptLength(s[..TrimTo(s)]) == KeptLength(s)
    ensures TrimTo(s) > 0 ==> !IsSpace(s[TrimTo(s) - 1])
  {
    KeptLengthIs(s, TrimTo(s));
  }

  lemma SemicolonStripped(s: string)
    requires s != [] && s[|s| - 1] == ';'
    ensures var front := s[..|s| - 1]; var m := TrimTo(front);
            && KeptLength(front[..m]) == KeptLength(s)
            && (m > 0 ==> !IsSpace(front[m - 1]))
  {
    KeptLengthIs(s, |s| - 1);
    TrimKeepsKept(s[..|s| - 1]);
  }

  lemma NothingToStrip(s: string)
    requires s != [] ==> s[|s| - 1] != ';' && !IsSpace(s[|s| - 1])
    ensures KeptLength(s) == |s|
  {
  }

  lemma KeptIsStripped(sql: string)
    ensures var kept := sql[..KeptLength(sql)];
            && kept <= sql && (forall k :: |kept| <= k < |sql| ==> sql[k] == ';' || IsSpace(sql[k]))
            && (kept != [] ==> kept[|kept| - 1] != ';' && !IsSpace(kept[|kept| - 1]))
  {
  }

  // ----- rows to descriptors

  /** A JSON cell of an answer row: an integer, a text, or neither. */
  datatype Cell = Int(n: int) | Str(s: string) | Neither

  type Row = seq<Cell>

  /** A parameter as described; everything in it is computed from the type's text. */
  datatype Descriptor = Descriptor(typeName: string)

  datatype Placed = Placed(position: nat, param: Descriptor)

  /** A row with a position and a type name; any other row is left out. */
  function PlacedRow(row: Row): Option<Placed> {
    if |row| >= 2 && row[0].Int? && row[0].n >= 0 && row[1].Str?
    then Some(Placed(row[0].n, Descriptor(row[1].s))) else None
  }

  function Kept(rows: seq<Row>): seq<Placed> {
    if rows == [] then []
    else
      var front := Kept(rows[..|rows| - 1]);
      match PlacedRow(rows[|rows| - 1]) case None => front case Some(p) => front + [p]
  }

  /** Puts `p` after every element whose position is not greater. */
  function Insert(sorted: seq<Placed>, p: Placed): (r: seq<Placed>)
    ensures multiset(r) == multiset(sorted) + multiset{p}
  {
    if sorted == [] || sorted[|sorted| - 1].position <= p.position then sorted + [p]
    else
      assert sorted == sorted[..|sorted| - 1] + [sorted[|sorted| - 1]];
      Insert(sorted[..|sorted| - 1], p) + [sorted[|sorted| - 1]]
  }

  /** A stable sort by position. */
  function Sorted(ps: seq<Placed>): (r: seq<Placed>)
    ensures multiset(r) == multiset(ps)
    ensures |r| == |ps|
  {
    if ps == [] then []
    else
      assert ps == ps[..|ps| - 1] + [ps[|ps| - 1]];
      var r := Insert(Sorted(ps[..|ps| - 1]), ps[|ps| - 1]);
      assert |r| == |multiset(r)|;
      r
  }

  function Params(rows: seq<Row>): (params: seq<Descriptor>)
    ensures |params| == |Kept(rows)|
  {
    var sorted := Sorted(Kept(rows));
    seq(|sorted|, i requires 0 <= i < |sorted| => sorted[i].param)
  }

  predicate InOrder(ps: seq<Placed>) {
    forall i, j :: 0 <= i < j < |ps| ==> ps[i].position <= ps[j].position
  }

  lemma {:induction false} InsertKeepsOrder(sorted: seq<Placed>, p: Placed)
    requires InOrder(sorted)
    ensures InOrder(Insert(sorted, p))
    ensures forall x :: x in Insert(sorted, p) <==> x in sorted || x == p
  {
    if sorted != [] && sorted[|sorted| - 1].position > p.position {
      var front, last := sorted[..|sorted| - 1], sorted[|sorted| - 1];
      InsertKeepsOrder(front, p);
      var r := Insert(front, p);
      assert sorted == front + [last];
      forall i | 0 <= i < |r|
        ensures r[i].position <= last.position
      {
        assert r[i] in r;
      }
    }
  }

  lemma {:induction false} SortedIsInOrder(ps: seq<Placed>)
    ensures InOrder(Sorted(ps))
    ensures forall x :: x in Sorted(ps) <==> x in ps
  {
    if ps != [] {
      SortedIsInOrder(ps[..|ps| - 1]);
      InsertKeepsOrder(Sorted(ps[..|ps| - 1]), ps[|ps| - 1]);
      assert ps == ps[..|ps| - 1] + [ps[|ps| - 1]];
    }
  }

  // ----- when the index is the position

  /** Element `n` describes position `n`, for every `n`. */
  predicate Aligned(ps: seq<Placed>) {
    forall i :: 0 <= i < |ps| ==> ps[i].position == i
  }

  predicate Has(ps: seq<Placed>, n: nat) {
    exists i :: 0 <= i < |ps| && ps[i].position == n
  }

  /** Every position from nought up to the number of rows is there. */
  predicate Complete(ps: seq<Placed>) {
    forall n: nat :: n < |ps| ==> Has(ps, n)
  }

  /** How many elements of `ps` have a position below `n`. */
  function Below(ps: seq<Placed>, n: nat): nat {
    if ps == [] then 0 else Below(ps[..|ps| - 1], n) + (if ps[|ps| - 1].position < n then 1 else 0)
  }

  lemma {:induction false} BelowBounds(ps: seq<Placed>, n: nat)
    ensures Below(ps, n) <= |ps|
    ensures Below(ps, n) <= Below(ps, n + 1)
    ensures Has(ps, n) <==> Below(ps, n) < Below(ps, n + 1)
  {
    if ps != [] {
      var front := ps[..|ps| - 1];
      BelowBounds(front, n);
      if i :| 0 <= i < |ps| && ps[i].position == n {
        assert i < |front| ==> front[i] == ps[i];
      }
      if i :| 0 <= i < |front| && front[i].position == n {
        assert ps[i].position == n;
      }
      if ps[|ps| - 1].position == n {
        assert ps[|ps| - 1].position == n;
      }
    }
  }

  /** With every position present, exactly `n` elements lie below each `n` up to the count. */
  lemma {:induction false} CompleteCounts(ps: seq<Placed>, n: nat)
    requires Complete(ps) && n <= |ps|
    ensures Below(ps, n) >= n
    decreases n
  {
    if n > 0 {
      assert Has(ps, n - 1);
      CompleteCounts(ps, n - 1);
      BelowBounds(ps, n - 1);
    }
  }

  lemma {:induction false} CountsDown(ps: seq<Placed>, n: nat)
    requires Complete(ps) && n <= |ps|
    ensures Below(ps, n) <= n
    decreases |ps| - n
  {
    BelowBounds(ps, n);
    if n < |ps| {
      assert Has(ps, n);
      CountsDown(ps, n + 1);
    }
  }

  /** In an ordered sequence the elements below `n` come first. */
  lemma {:induction false} OrderedBelow(ps: seq<Placed>, n: nat)
    requires InOrder(ps)
    ensures Below(ps, n) <= |ps|
    ensures forall i :: 0 <= i < |ps| ==> (ps[i].position < n <==> i < Below(ps, n))
  {
    if ps != [] {
      var front := ps[..|ps| - 1];
      OrderedBelow(front, n);
      assert forall i :: 0 <= i < |front| ==> front[i] == ps[i];
      if ps[|ps| - 1].position < n && front != [] {
        assert front[|front| - 1].position < n;
      }
    }
  }

  /**
   * The described parameters are indexed by position, whatever order the rows
   * came in, iff the positions of the readable rows leave no gap.
   */
  lemma AlignedIffComplete(rows: seq<Row>)
    ensures Aligned(Sorted(Kept(rows))) <==> Complete(Kept(rows))
  {
    var ps := Kept(rows);
    var s := Sorted(ps);
    SortedIsInOrder(ps);
    SamePositions(ps, s);
    SamePositions(s, ps);
    OrderedAlignedIff(s);
  }

  lemma OrderedAlignedIff(s: seq<Placed>)
    requires InOrder(s)
    ensures Aligned(s) <==> Complete(s)
  {
    if Complete(s) {
      forall i | 0 <= i < |s|
        ensures s[i].position == i
      {
        CompleteCounts(s, i);
        CountsDown(s, i);
        CompleteCounts(s, i + 1);
        CountsDown(s, i + 1);
        OrderedBelow(s, i);
        OrderedBelow(s, i + 1);
      }
    }
    if Aligned(s) {
      forall n: nat | n < |s|
        ensures Has(s, n)
      {
        assert s[n].position == n;
      }
    }
  }

  lemma SamePositions(a: seq<Placed>, b: seq<Placed>)
    requires |a| == |b| && (forall x :: x in a ==> x in b)
    ensures Complete(a) ==> Complete(b)
  {
    if Complete(a) {
      forall n: nat | n < |b|
        ensures Has(b, n)
      {
        assert Has(a, n);
        var j :| 0 <= j < |a| && a[j].position == n;
        assert a[j] in b;
        var i :| 0 <= i < |b| && b[i] == a[j];
        assert b[i].position == n;
      }
    }
  }

  /** Then element `n` is the descriptor of the row that said position `n`. */
  lemma ElementDescribesPosition(rows: seq<Row>, n: nat, p: Placed)
    requires Complete(Kept(rows)) && n < |Kept(rows)|
    requires p in Kept(rows) && p.position == n
    ensures Params(rows)[n] == p.param
  {
    var s := Sorted(Kept(rows));
    AlignedIffComplete(rows);
    SortedIsInOrder(Kept(rows));
    assert p in s;
    var i :| 0 <= i < |s| && s[i] == p;
    assert s[i].position == i;
  }

  // ----- the cache

  /**
   * The coordinator as a fixed server: the rows it describes a stripped
   * statement's inputs with, or nothing if it will not prepare it.
   */
  type Server = string -> Option<seq<Row>>

  datatype Answer = Described(param: Option<Descriptor>) | Failed

  datatype Cached = Cached(sql: string, params: seq<Descriptor>)

  function FetchInputParams(server: Server, sql: string): Option<seq<Descriptor>> {
    match server(sql[..KeptLength(sql)])
    case None => None
    case Some(rows) => Some(Params(rows))
  }

  function Pick(params: seq<Descriptor>, number: nat): Option<Descriptor> {
    if 1 <= number <= |params| then Some(params[number - 1]) else None
  }

  /** What a fresh round trip would answer. */
  function Fresh(server: Server, sql: string, number: nat, inTransaction: bool): Answer {
    if number == 0 then Described(None)
    else match FetchInputParams(server, sql)
      case Some(params) => Described(Pick(params, number))
      case None => if inTransaction then Failed else Described(None)
  }

  class Describer {
    const server: Server
    var cache: Option<Cached>

    /** A cached entry is what the server says of its statement. */
    ghost predicate Valid()
      reads this
    {
      cache.Some? ==> FetchInputParams(server, cache.value.sql) == Some(cache.value.params)
    }

    constructor (server: Server)
      ensures Valid() && this.server == server
    {
      this.server := server;
      cache := None;
    }

    /** The cache is transparent: every answer is the one a fresh round trip would give. */
    method DescribeParam(sql: string, number: nat, inTransaction: bool) returns (answer: Answer)
      requires Valid()
      modifies this
      ensures Valid() && answer == Fresh(server, sql, number, inTransaction)
      ensures (cache, answer) == Step(server, old(cache), sql, number, inTransaction)
    {
      if number == 0 {
        return Described(None);
      }
      if cache.None? || cache.value.sql != sql {
        var stripped := StripTrailingSemicolons(sql);
        match server(stripped) {
          case Some(rows) =>
            cache := Some(Cached(sql, Params(rows)));
          case None =>
            if !inTransaction {
              return Described(None);
            }
            return Failed;
        }
      }
      answer := Described(Pick(cache.value.params, number));
    }
  }

  function Step(server: Server, cache: Option<Cached>, sql: string, number: nat, inTransaction: bool)
    : (Option<Cached>, Answer)
  {
    if number == 0 then (cache, Described(None))
    else if cache.Some? && cache.value.sql == sql then (cache, Described(Pick(cache.value.params, number)))
    else match FetchInputParams(server, sql)
      case Some(params) => (Some(Cached(sql, params)), Described(Pick(params, number)))
      case None => (cache, if inTransaction then Failed else Described(None))
  }

  datatype Call = Call(sql: string, number: nat, inTransaction: bool)

  /** The answers to a run of calls, and the cache afterwards. */
  function Answers(server: Server, calls: seq<Call>): (r: (Option<Cached>, seq<Answer>))
    ensures |r.1| == |calls|
  {
    if calls == [] then (None, [])
    else
      var (cache, before) := Answers(server, calls[..|calls| - 1]);
      var c := calls[|calls| - 1];
      var (after, answer) := Step(server, cache, c.sql, c.number, c.inTransaction);
      (after, before + [answer])
  }

  /** Over every run of calls against a fixed server, caching changes no answer. */
  lemma {:induction false} CacheIsTransparent(server: Server, calls: seq<Call>)
    ensures var (cache, answers) := Answers(server, calls);
            && (cache.Some? ==> FetchInputParams(server, cache.value.sql) == Some(cache.value.params))
            && forall i :: 0 <= i < |calls| ==>
                 answers[i] == Fresh(server, calls[i].sql, calls[i].number, calls[i].inTransaction)
  {
    hide FetchInputParams;
    if calls != [] {
      var front := calls[..|calls| - 1];
      CacheIsTransparent(server, front);
      assert forall i :: 0 <= i < |front| ==> Answers(server, calls).1[i] == Answers(server, front).1[i];
      assert forall i :: 0 <= i < |front| ==> front[i] == calls[i];
    }
  }

  lemma KeptPair(a: Row, b: Row)
    requires PlacedRow(a).Some? && PlacedRow(b).Some?
    ensures Kept([a, b]) == [PlacedRow(a).value, PlacedRow(b).value]
  {
    assert [a, b][..1] == [a] && [a][..0] == [];
    assert Kept([a]) == [] + [PlacedRow(a).value];
  }

  lemma SortedPair(a: Placed, b: Placed)
    requires a.position <= b.position
    ensures Sorted([a, b]) == [a, b]
  {
    assert [a, b][..1] == [a] && [a][..0] == [];
    assert Sorted([a]) == Insert([], a) == [a];
  }

  /** A missing position shifts what follows it: the gap is described by its successor. */
  lemma GapMisdescribes(first: string, second: string)
    ensures var rows := [[Int(0), Str(first)], [Int(2), Str(second)]];
            !Complete(Kept(rows)) && Params(rows) == [Descriptor(first), Descriptor(second)]
  {
    hide Kept, Sorted;
    KeptPair([Int(0), Str(first)], [Int(2), Str(second)]);
    SortedPair(Placed(0, Descriptor(first)), Placed(2, Descriptor(second)));
    assert !Has([Placed(0, Descriptor(first)), Placed(2, Descriptor(second))], 1);
  }

  // ----- what is answered, row by row

  lemma {:induction false} KeptConcat(a: seq<Row>, b: seq<Row>)
    ensures Kept(a + b) == Kept(a) + Kept(b)
  {
    if b == [] {
      assert a + b == a;
    } else {
      assert (a + b)[..|a + b| - 1] == a + b[..|b| - 1];
      KeptConcat(a, b[..|b| - 1]);
    }
  }

  /** A row whose first cell is a position and whose second is a type's name, whatever follows them. */
  predicate Describes(row: Row, position: nat, typeName: string) {
    |row| >= 2 && row[0] == Int(position) && row[1] == Str(typeName)
  }

  /** A row that describes a parameter is kept as that; every other row is left out. */
  lemma RowsAreRead(before: seq<Row>, row: Row, after: seq<Row>)
    ensures forall position, typeName :: Describes(row, position, typeName) ==>
              Kept(before + [row] + after) == Kept(before) + [Placed(position, Descriptor(typeName))] + Kept(after)
    ensures (forall position, typeName :: !Describes(row, position, typeName)) ==>
              Kept(before + [row] + after) == Kept(before) + Kept(after)
  {
    KeptConcat(before + [row], after);
    KeptConcat(before, [row]);
    assert [row][..0] == [];
    assert Kept([row]) == match PlacedRow(row) case None => [] case Some(p) => [p];
    if PlacedRow(row).Some? {
      assert Describes(row, row[0].n, row[1].s);
    }
  }

  lemma RowIsKept(rows: seq<Row>, i: nat, position: nat, typeName: string)
    requires i < |rows| && Describes(rows[i], position, typeName)
    ensures Placed(position, Descriptor(typeName)) in Kept(rows)
  {
    assert rows == rows[..i] + [rows[i]] + rows[i + 1..];
    RowsAreRead(rows[..i], rows[i], rows[i + 1..]);
  }

  /**
   * What a parameter number is answered with. Parameter `n + 1` is described by
   * the row that says `n`, when no position is missing; past the last described
   * parameter, and for number nought, there is no answer; and where the server
   * will not prepare the statement, its refusal is an error inside a transaction
   * only.
   */
  lemma FreshAnswers(server: Server, sql: string, number: nat, inTransaction: bool)
    ensures number == 0 ==> Fresh(server, sql, number, inTransaction) == Described(None)
    ensures var answered := server(sql[..KeptLength(sql)]);
            && (number > 0 && answered.None? ==>
                  Fresh(server, sql, number, inTransaction) == if inTransaction then Failed else Described(None))
            && (answered.Some? && number > |Kept(answered.value)| ==>
                  Fresh(server, sql, number, inTransaction) == Described(None))
            && (answered.Some? && Complete(Kept(answered.value)) && 0 < number <= |Kept(answered.value)| ==>
                  forall i, typeName :: 0 <= i < |answered.value| ==>
                    Describes(answered.value[i], number - 1, typeName) ==>
                    Fresh(server, sql, number, inTransaction) == Described(Some(Descriptor(typeName))))
  {
    hide Kept, Params, Complete, KeptLength;
    var answered := server(sql[..KeptLength(sql)]);
    if answered.Some? && Complete(Kept(answered.value)) && 0 < number <= |Kept(answered.value)| {
      var rows := answered.value;
      forall i, typeName | 0 <= i < |rows| && Describes(rows[i], number - 1, typeName)
        ensures Params(rows)[number - 1] == Descriptor(typeName)
      {
        RowIsKept(rows, i, number - 1, typeName);
        ElementDescribesPosition(rows, number - 1, Placed(number - 1, Descriptor(typeName)));
      }
    }
  }

  // ----- rows that claim one position

  /** The parameters placed at one position, in the order they stand. */
  function PlacedAt(ps: seq<Placed>, n: nat): seq<Descriptor> {
    if ps == [] then []
    else
      var last := ps[|ps| - 1];
      PlacedAt(ps[..|ps| - 1], n) + (if last.position == n then [last.param] else [])
  }

  lemma OneMorePlaced(ps: seq<Placed>, p: Placed, n: nat)
    ensures PlacedAt(ps + [p], n) == PlacedAt(ps, n) + (if p.position == n then [p.param] else [])
  {
    assert (ps + [p])[..|ps|] == ps;
  }

  lemma InsertUnfolds(sorted: seq<Placed>, p: Placed)
    ensures Insert(sorted, p)
         == if sorted == [] || sorted[|sorted| - 1].position <= p.position then sorted + [p]
            else Insert(sorted[..|sorted| - 1], p) + [sorted[|sorted| - 1]]
  {
  }

  lemma {:induction false} InsertIsLast(sorted: seq<Placed>, p: Placed, n: nat)
    ensures PlacedAt(Insert(sorted, p), n) == PlacedAt(sorted, n) + (if p.position == n then [p.param] else [])
  {
    hide PlacedAt, Insert;
    InsertUnfolds(sorted, p);
    if sorted == [] || sorted[|sorted| - 1].position <= p.position {
      OneMorePlaced(sorted, p, n);
    } else {
      var (front, last) := (sorted[..|sorted| - 1], sorted[|sorted| - 1]);
      assert sorted == front + [last];
      InsertIsLast(front, p, n);
      OneMorePlaced(front, last, n);
      OneMorePlaced(Insert(front, p), last, n);
    }
  }

  /** Of rows that claim the same position the order is kept. */
  lemma {:induction false} SortIsStable(ps: seq<Placed>, n: nat)
    ensures PlacedAt(Sorted(ps), n) == PlacedAt(ps, n)
  {
    if ps != [] {
      var front := ps[..|ps| - 1];
      SortIsStable(front, n);
      InsertIsLast(Sorted(front), ps[|ps| - 1], n);
    }
  }
}
