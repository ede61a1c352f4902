/**
 The leaderboard (list_players): read every ".json" player file's SPENT,
 rank by it in descending order, keeping scan order among ties, and render
 one line per player.  The scan is given as the parsed files in directory
 order; a file that failed to parse is not in it.
 */
module Leaderboard {
  import opened Values
  import opened Text
  import opened Store

  /** One scanned player file: its file name and its "SPENT" field. */
  datatype ScanEntry = ScanEntry(filename: string, spent: NumField)

  /** A leaderboard row before rendering. */
  datatype Standing = Standing(name: string, spent: real)

  /** float(SPENT), with an absent field defaulting to 0 and an unconvertible one ranking as 0. */
  function SpentValue(spent: NumField): (v: real)
    ensures spent.Absent? || spent.Unparseable? ==> v == 0.0
    ensures spent.Integer? ==> v == spent.n as real
    ensures spent.Decimal? ==> v == spent.x
  {
    match spent
    case Absent => 0.0
    case Integer(n) => n as real
    case Decimal(x) => x
    case Unparseable => 0.0
  }

  /** The row a ".json" file contributes: its name without the suffix and its spend. */
  function Row(e: ScanEntry): Standing {
    Standing(NameOf(e.filename), SpentValue(e.spent))
  }

  /** The rows the scan collects, in scan order: one per ".json" file. */
  function Standings(scan: seq<ScanEntry>): seq<Standing>
    decreases |scan|
  {
    if scan == [] then []
    else
      var before := Standings(scan[..|scan| - 1]);
      var e := scan[|scan| - 1];
      if EndsWith(e.filename, JsonSuffix) then before + [Row(e)] else before
  }

  /** The number of ".json" files in the scan. */
  function JsonCount(scan: seq<ScanEntry>): nat
    decreases |scan|
  {
    if scan == [] then 0
    else JsonCount(scan[..|scan| - 1]) + (if EndsWith(scan[|scan| - 1].filename, JsonSuffix) then 1 else 0)
  }

  /**
   One row per parsable ".json" file: every row is the row of some ".json"
   entry, and every ".json" entry contributes its row.
   */
  lemma {:induction false} StandingsOfScan(scan: seq<ScanEntry>)
    ensures |Standings(scan)| == JsonCount(scan)
    ensures forall p :: p in Standings(scan) ==>
      exists e :: e in scan && EndsWith(e.filename, JsonSuffix) && p == Row(e)
    ensures forall k :: 0 <= k < |scan| && EndsWith(scan[k].filename, JsonSuffix) ==> Row(scan[k]) in Standings(scan)
    decreases |scan|
  {
    if scan != [] {
      var front := scan[..|scan| - 1];
      StandingsOfScan(front);
      forall p | p in Standings(scan)
        ensures exists e :: e in scan && EndsWith(e.filename, JsonSuffix) && p == Row(e)
      {
        if p in Standings(front) {
          var e :| e in front && EndsWith(e.filename, JsonSuffix) && p == Row(e);
          assert e in scan;
        } else {
          assert scan[|scan| - 1] in scan;
        }
      }
      forall k | 0 <= k < |scan| && EndsWith(scan[k].filename, JsonSuffix)
        ensures Row(scan[k]) in Standings(scan)
      {
        if k < |front| {
          assert front[k] == scan[k];
        }
      }
    }
  }

  /**
   The row of the ".json" entry at position k sits at the position given by
   the number of ".json" entries scanned before it.
   */
  lemma {:induction false} StandingsInScanOrder(scan: seq<ScanEntry>, k: nat)
    requires k < |scan| && EndsWith(scan[k].filename, JsonSuffix)
    ensures JsonCount(scan[..k]) < |Standings(scan)|
    ensures Standings(scan)[JsonCount(scan[..k])] == Row(scan[k])
    decreases |scan|
  {
    var front := scan[..|scan| - 1];
    StandingsOfScan(front);
    if k == |scan| - 1 {
      assert scan[..k] == front;
    } else {
      assert scan[..k] == front[..k];
      assert front[k] == scan[k];
      StandingsInScanOrder(front, k);
    }
  }

  /**
   Positions grow with the scan: a ".json" entry scanned before position k2
   lands before every row collected from position k2 on, so rows follow scan order.
   */
  lemma {:induction false} JsonCountIncreases(scan: seq<ScanEntry>, k1: nat, k2: nat)
    requires k1 < k2 <= |scan| && EndsWith(scan[k1].filename, JsonSuffix)
    ensures JsonCount(scan[..k1]) < JsonCount(scan[..k2])
    decreases k2
  {
    assert scan[..k2][..k2 - 1] == scan[..k2 - 1];
    if k2 > k1 + 1 {
      JsonCountIncreases(scan, k1, k2 - 1);
    }
  }

  /**
   Place p in front of the first row whose spend it reaches, so p goes ahead
   of every row it ties with.  SortBySpent inserts the rows from the last to
   the first, so of two tied rows the earlier one is inserted later and ends
   up ahead: that is what makes the sort stable.
   */
  function Insert(p: Standing, rows: seq<Standing>): seq<Standing>
    decreases |rows|
  {
    if rows == [] then [p]
    else if p.spent >= rows[0].spent then [p] + rows
    else [rows[0]] + Insert(p, rows[1..])
  }

  /** players.sort(key=spent, reverse=True): a stable sort by descending spend. */
  function SortBySpent(rows: seq<Standing>): seq<Standing>
    decreases |rows|
  {
    if rows == [] then [] else Insert(rows[0], SortBySpent(rows[1..]))
  }

  lemma {:induction false} InsertPermutes(p: Standing, rows: seq<Standing>)
    ensures multiset(Insert(p, rows)) == multiset(rows) + multiset{p}
    decreases |rows|
  {
    if rows != [] && p.spent < rows[0].spent {
      assert rows == [rows[0]] + rows[1..];
      InsertPermutes(p, rows[1..]);
    }
  }

  /** The sort returns a permutation of its input. */
  lemma {:induction false} SortBySpentPermutes(rows: seq<Standing>)
    ensures multiset(SortBySpent(rows)) == multiset(rows)
    decreases |rows|
  {
    if rows != [] {
      assert rows == [rows[0]] + rows[1..];
      SortBySpentPermutes(rows[1..]);
      InsertPermutes(rows[0], SortBySpent(rows[1..]));
    }
  }

  ghost predicate Descending(rows: seq<Standing>) {
    forall i, j :: 0 <= i < j < |rows| ==> rows[i].spent >= rows[j].spent
  }

  /** The rows whose spend is exactly v, in order. */
  function Tied(rows: seq<Standing>, v: real): seq<Standing>
    decreases |rows|
  {
    if rows == [] then []
    else (if rows[0].spent == v then [rows[0]] else []) + Tied(rows[1..], v)
  }

  lemma DescendingCons(h: Standing, t: seq<Standing>)
    requires Descending(t)
    requires forall x :: x in t ==> h.spent >= x.spent
    ensures Descending([h] + t)
  {
    var full := [h] + t;
    forall i, j | 0 <= i < j < |full| ensures full[i].spent >= full[j].spent {
      assert full[j] == t[j - 1];
      if i > 0 {
        assert full[i] == t[i - 1];
      }
    }
  }

  lemma InsertBounded(p: Standing, rows: seq<Standing>, bound: real)
    requires p.spent <= bound
    requires forall x :: x in rows ==> x.spent <= bound
    ensures forall x :: x in Insert(p, rows) ==> x.spent <= bound
  {
    InsertPermutes(p, rows);
    forall x | x in Insert(p, rows) ensures x.spent <= bound {
      assert x in multiset(Insert(p, rows));
      assert x == p || x in multiset(rows);
    }
  }

  lemma {:induction false} InsertDescending(p: Standing, rows: seq<Standing>)
    requires Descending(rows)
    ensures Descending(Insert(p, rows))
    decreases |rows|
  {
    if rows == [] {
    } else if p.spent >= rows[0].spent {
      forall x | x in rows ensures p.spent >= x.spent {
        var k :| 0 <= k < |rows| && rows[k] == x;
        assert k == 0 || rows[0].spent >= rows[k].spent;
      }
      DescendingCons(p, rows);
    } else {
      var tail := rows[1..];
      assert Descending(tail) by {
        forall i, j | 0 <= i < j < |tail| ensures tail[i].spent >= tail[j].spent {
          assert tail[i] == rows[i + 1] && tail[j] == rows[j + 1];
        }
      }
      InsertDescending(p, tail);
      forall x | x in tail ensures x.spent <= rows[0].spent {
        var k :| 0 <= k < |tail| && tail[k] == x;
        assert rows[k + 1] == x;
      }
      InsertBounded(p, tail, rows[0].spent);
      DescendingCons(rows[0], Insert(p, tail));
    }
  }

  /** The sort returns the rows in non-increasing order of spend. */
  lemma {:induction false} SortBySpentDescending(rows: seq<Standing>)
    ensures Descending(SortBySpent(rows))
    decreases |rows|
  {
    if rows != [] {
      SortBySpentDescending(rows[1..]);
      InsertDescending(rows[0], SortBySpent(rows[1..]));
    }
  }

  lemma {:induction false} TiedInsert(p: Standing, rows: seq<Standing>, v: real)
    ensures Tied(Insert(p, rows), v) == (if p.spent == v then [p] else []) + Tied(rows, v)
    decreases |rows|
  {
    var mine := if p.spent == v then [p] else [];
    if rows == [] {
      assert Insert(p, rows) == [p];
      assert [p][1..] == [];
    } else if p.spent >= rows[0].spent {
      var full := [p] + rows;
      assert Insert(p, rows) == full;
      assert full[0] == p && full[1..] == rows;
    } else {
      var head, rest := rows[0], rows[1..];
      var theirs := if head.spent == v then [head] else [];
      TiedInsert(p, rest, v);
      var full := [head] + Insert(p, rest);
      assert Insert(p, rows) == full;
      assert full[0] == head && full[1..] == Insert(p, rest);
      assert Tied(full, v) == theirs + (mine + Tied(rest, v));
      assert Tied(rows, v) == theirs + Tied(rest, v);
      assert mine == [] || theirs == [];
    }
  }

  /** Stability: the players tied at any spend appear in the order the scan found them. */
  lemma {:induction false} SortBySpentStable(rows: seq<Standing>, v: real)
    ensures Tied(SortBySpent(rows), v) == Tied(rows, v)
    decreases |rows|
  {
    if rows != [] {
      SortBySpentStable(rows[1..], v);
      TiedInsert(rows[0], SortBySpent(rows[1..]), v);
    }
  }

  /** "<rank>. <name> - Total Spent: <int(spent)> coins" */
  function Line(rank: nat, p: Standing): string {
    NatToString(rank) + ". " + p.name + " - Total Spent: " + IntToString(Trunc(p.spent)) + " coins"
  }

  /** Every line begins with its decimal rank followed by ". ", and the rank reads back. */
  lemma LineBeginsWithRank(rank: nat, p: Standing)
    ensures var prefix := NatToString(rank);
      |prefix| + 2 <= |Line(rank, p)| && Line(rank, p)[..|prefix| + 2] == prefix + ". "
      && AllDigits(prefix) && ParseNat(prefix) == rank
  {
    NatToStringDigits(rank);
    ParseNatToString(rank);
  }

  /** The ranked rows of a scan. */
  function Ranking(scan: seq<ScanEntry>): seq<Standing> {
    SortBySpent(Standings(scan))
  }

  /**
   The ranking has one row per ".json" file, in non-increasing order of
   spend, holds exactly the scanned rows, and keeps scan order among ties.
   */
  lemma RankingSpec(scan: seq<ScanEntry>)
    ensures |Ranking(scan)| == JsonCount(scan)
    ensures multiset(Ranking(scan)) == multiset(Standings(scan))
    ensures Descending(Ranking(scan))
    ensures forall v :: Tied(Ranking(scan), v) == Tied(Standings(scan), v)
  {
    StandingsOfScan(scan);
    SortBySpentPermutes(Standings(scan));
    assert |Ranking(scan)| == |multiset(Ranking(scan))|;
    SortBySpentDescending(Standings(scan));
    forall v ensures Tied(Ranking(scan), v) == Tied(Standings(scan), v) {
      SortBySpentStable(Standings(scan), v);
    }
  }

  /**
   list_players: collect one row per ".json" file, sort them by descending
   spend and render line i (1-based) from the i-th row.
   */
  method ListPlayers(scan: seq<ScanEntry>) returns (results: seq<string>)
    ensures |results| == |Ranking(scan)|
    ensures forall i :: 0 <= i < |results| ==> results[i] == Line(i + 1, Ranking(scan)[i])
  {
    var players: seq<Standing> := [];
    for k := 0 to |scan|
      invariant players == Standings(scan[..k])
    {
      assert scan[..k + 1][..k] == scan[..k];
      var e := scan[k];
      if !EndsWith(e.filename, JsonSuffix) {
        continue;
      }
      var name := NameOf(e.filename);
      var spent := SpentValue(e.spent);
      players := players + [Standing(name, spent)];
    }
    assert scan[..|scan|] == scan;
    players := SortBySpent(players);
    assert players == Ranking(scan);
    results := [];
    for i := 0 to |players|
      invariant players == Ranking(scan)
      invariant |results| == i
      invariant forall j :: 0 <= j < i ==> results[j] == Line(j + 1, players[j])
    {
      results := results + [Line(i + 1, players[i])];
    }
  }

  /** A:500, B:100, C:500 ranks A, then C, then B. */
  lemma ExampleTies()
    ensures SortBySpent([Standing("A", 500.0), Standing("B", 100.0), Standing("C", 500.0)])
      == [Standing("A", 500.0), Standing("C", 500.0), Standing("B", 100.0)]
  {
    var a, b, c := Standing("A", 500.0), Standing("B", 100.0), Standing("C", 500.0);
    assert [c][1..] == [];
    assert SortBySpent([c]) == [c];
    assert [b, c][1..] == [c];
    assert Insert(b, []) == [b];
    assert Insert(b, [c]) == [c, b];
    assert SortBySpent([b, c]) == [c, b];
    assert [a, b, c][1..] == [b, c];
    assert SortBySpent([a, b, c]) == Insert(a, [c, b]) == [a, c, b];
  }
}
