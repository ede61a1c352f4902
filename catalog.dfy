/**
 The catalog loader (load_lootboxes), applied to the records already read
 from the catalog directory, in scan order.  A record that failed to parse is
 simply not in the sequence.
 */
module Catalog {
  import opened Values
  import opened Selector

  /** A parsed catalog record: its "name" (None when absent or null), "cost" and "items" (an absent list is []). */
  datatype CatalogRecord = CatalogRecord(name: Option<string>, cost: NumField, items: seq<PrizeEntry>)

  /** A loaded lootbox: the coerced integer cost and the item list. */
  datatype Lootbox = Lootbox(cost: int, items: seq<PrizeEntry>)

  /** The cost coercion: int(cost), else int(float(cost)), else 0; an absent cost defaults to 0. */
  function CoerceCost(cost: NumField): (c: int)
    ensures cost.Absent? || cost.Unparseable? ==> c == 0
    ensures cost.Integer? ==> c == cost.n
    ensures cost.Decimal? && cost.x >= 0.0 ==> c as real <= cost.x < c as real + 1.0
    ensures cost.Decimal? && cost.x < 0.0 ==> c as real - 1.0 < cost.x <= c as real
    ensures cost.Decimal? && cost.x == cost.x.Floor as real ==> c as real == cost.x
  {
    match cost
    case Absent => 0
    case Integer(n) => n
    case Decimal(x) => TruncOfInteger(x.Floor); Trunc(x)
    case Unparseable => 0
  }

  /** The catalog entry a named record contributes. */
  function Normalise(rec: CatalogRecord): Lootbox {
    Lootbox(CoerceCost(rec.cost), rec.items)
  }

  /** The catalog built from the records in scan order; a later record overwrites an earlier one of the same name. */
  function Lootboxes(records: seq<CatalogRecord>): map<string, Lootbox>
    decreases |records|
  {
    if records == [] then map[]
    else
      var previous := Lootboxes(records[..|records| - 1]);
      var last := records[|records| - 1];
      if Truthy(last.name) then previous[last.name.value := Normalise(last)] else previous
  }

  /** A name is in the catalog exactly when some record carries it and it is not empty. */
  lemma {:induction false} LootboxesKeys(records: seq<CatalogRecord>, name: string)
    ensures name in Lootboxes(records) <==>
      name != "" && exists i :: 0 <= i < |records| && records[i].name == Some(name)
    decreases |records|
  {
    if records != [] {
      var front := records[..|records| - 1];
      LootboxesKeys(front, name);
      if name != "" && (exists i :: 0 <= i < |records| && records[i].name == Some(name)) {
        var i :| 0 <= i < |records| && records[i].name == Some(name);
        if i < |front| {
          assert front[i] == records[i];
        }
      }
      if exists i :: 0 <= i < |front| && front[i].name == Some(name) {
        var i :| 0 <= i < |front| && front[i].name == Some(name);
        assert records[i] == front[i];
      }
    }
  }

  /** For a duplicated name the last record carrying it decides the entry. */
  lemma {:induction false} LootboxesLastWins(records: seq<CatalogRecord>, i: nat)
    requires i < |records| && Truthy(records[i].name)
    requires forall j :: i < j < |records| ==> records[j].name != records[i].name
    ensures records[i].name.value in Lootboxes(records)
    ensures Lootboxes(records)[records[i].name.value] == Normalise(records[i])
    decreases |records|
  {
    if i < |records| - 1 {
      var front := records[..|records| - 1];
      assert front[i] == records[i];
      forall j | i < j < |front| ensures front[j].name != front[i].name {
        assert front[j] == records[j];
      }
      LootboxesLastWins(front, i);
    }
  }

  /** A record without a truthy name contributes nothing. */
  lemma SkipsNameless(records: seq<CatalogRecord>, rec: CatalogRecord)
    requires !Truthy(rec.name)
    ensures Lootboxes(records + [rec]) == Lootboxes(records)
  {
    assert (records + [rec])[..|records|] == records;
  }

  /**
   Assigning a dict entry, seen as its list of items in insertion order: an
   existing name keeps its place and takes the new value, a new name goes last.
   */
  function Upsert(entries: seq<(string, Lootbox)>, name: string, box: Lootbox): (r: seq<(string, Lootbox)>)
    ensures forall i :: 0 <= i < |entries| && entries[i].0 == name && (forall j :: 0 <= j < i ==> entries[j].0 != name) ==>
      r == entries[i := (name, box)]
    ensures (forall i :: 0 <= i < |entries| ==> entries[i].0 != name) ==> r == entries + [(name, box)]
    decreases |entries|
  {
    if entries == [] then [(name, box)]
    else if entries[0].0 == name then [(name, box)] + entries[1..]
    else [entries[0]] + Upsert(entries[1..], name, box)
  }

  /** The catalog's items() in insertion order: the list the console menu numbers. */
  function CatalogItems(records: seq<CatalogRecord>): seq<(string, Lootbox)>
    decreases |records|
  {
    if records == [] then []
    else
      var previous := CatalogItems(records[..|records| - 1]);
      var last := records[|records| - 1];
      if Truthy(last.name) then Upsert(previous, last.name.value, Normalise(last)) else previous
  }

  /** No name is listed twice. */
  predicate DistinctNames(entries: seq<(string, Lootbox)>) {
    forall i, j :: 0 <= i < j < |entries| ==> entries[i].0 != entries[j].0
  }

  /** Assigning a name that is already listed replaces it where it stands. */
  lemma UpsertExisting(entries: seq<(string, Lootbox)>, name: string, box: Lootbox, i: nat)
    requires DistinctNames(entries) && i < |entries| && entries[i].0 == name
    ensures Upsert(entries, name, box) == entries[i := (name, box)]
  {
    assert forall j :: 0 <= j < i ==> entries[j].0 != name;
  }

  /** The listed names are the catalog's names, each listed once with its entry. */
  lemma {:induction false} CatalogItemsAgree(records: seq<CatalogRecord>)
    ensures DistinctNames(CatalogItems(records))
    ensures forall i :: 0 <= i < |CatalogItems(records)| ==>
      CatalogItems(records)[i].0 in Lootboxes(records) && Lootboxes(records)[CatalogItems(records)[i].0] == CatalogItems(records)[i].1
    ensures forall name :: name in Lootboxes(records) ==> exists i :: 0 <= i < |CatalogItems(records)| && CatalogItems(records)[i].0 == name
    decreases |records|
  {
    if records != [] {
      var front := records[..|records| - 1];
      CatalogItemsAgree(front);
      var last := records[|records| - 1];
      if Truthy(last.name) {
        var previous, items := CatalogItems(front), CatalogItems(records);
        var name, box := last.name.value, Normalise(last);
        assert items == Upsert(previous, name, box);
        if i :| 0 <= i < |previous| && previous[i].0 == name {
          UpsertExisting(previous, name, box, i);
          ExistingAgrees(previous, Lootboxes(front), Lootboxes(records), name, box, i);
        } else {
          NewAgrees(previous, Lootboxes(front), Lootboxes(records), name, box);
        }
      }
    }
  }

  /** The agreement step when the assigned name is already listed. */
  lemma ExistingAgrees(previous: seq<(string, Lootbox)>, before: map<string, Lootbox>, after: map<string, Lootbox>, name: string, box: Lootbox, i: nat)
    requires DistinctNames(previous) && i < |previous| && previous[i].0 == name
    requires forall k :: 0 <= k < |previous| ==> previous[k].0 in before && before[previous[k].0] == previous[k].1
    requires after == before[name := box]
    requires forall n :: n in before ==> exists k :: 0 <= k < |previous| && previous[k].0 == n
    ensures var items := previous[i := (name, box)];
      DistinctNames(items)
      && (forall k :: 0 <= k < |items| ==> items[k].0 in after && after[items[k].0] == items[k].1)
      && (forall n :: n in after ==> exists k :: 0 <= k < |items| && items[k].0 == n)
  {
    var items := previous[i := (name, box)];
    forall n | n in after ensures exists k :: 0 <= k < |items| && items[k].0 == n {
      if n != name {
        var k :| 0 <= k < |previous| && previous[k].0 == n;
        assert items[k].0 == n;
      } else {
        assert items[i].0 == n;
      }
    }
  }

  /** The agreement step when the assigned name is new. */
  lemma NewAgrees(previous: seq<(string, Lootbox)>, before: map<string, Lootbox>, after: map<string, Lootbox>, name: string, box: Lootbox)
    requires DistinctNames(previous) && forall k :: 0 <= k < |previous| ==> previous[k].0 != name
    requires forall k :: 0 <= k < |previous| ==> previous[k].0 in before && before[previous[k].0] == previous[k].1
    requires after == before[name := box]
    requires forall n :: n in before ==> exists k :: 0 <= k < |previous| && previous[k].0 == n
    ensures var items := previous + [(name, box)];
      DistinctNames(items)
      && (forall k :: 0 <= k < |items| ==> items[k].0 in after && after[items[k].0] == items[k].1)
      && (forall n :: n in after ==> exists k :: 0 <= k < |items| && items[k].0 == n)
  {
    var items := previous + [(name, box)];
    forall n | n in after ensures exists k :: 0 <= k < |items| && items[k].0 == n {
      if n != name {
        var k :| 0 <= k < |previous| && previous[k].0 == n;
        assert items[k].0 == n;
      } else {
        assert items[|previous|].0 == n;
      }
    }
  }

  /** A name defined again keeps its first place in the menu and takes the later record. */
  lemma RedefinedKeepsPlace(records: seq<CatalogRecord>, rec: CatalogRecord, i: nat)
    requires Truthy(rec.name) && i < |CatalogItems(records)| && CatalogItems(records)[i].0 == rec.name.value
    ensures |CatalogItems(records + [rec])| == |CatalogItems(records)|
    ensures CatalogItems(records + [rec])[i] == (rec.name.value, Normalise(rec))
    ensures forall j :: 0 <= j < |CatalogItems(records)| && j != i ==> CatalogItems(records + [rec])[j] == CatalogItems(records)[j]
  {
    assert (records + [rec])[..|records|] == records;
    CatalogItemsAgree(records);
    UpsertExisting(CatalogItems(records), rec.name.value, Normalise(rec), i);
  }

  /** A name not yet in the catalog is listed last. */
  lemma NewNameGoesLast(records: seq<CatalogRecord>, rec: CatalogRecord)
    requires Truthy(rec.name) && rec.name.value !in Lootboxes(records)
    ensures CatalogItems(records + [rec]) == CatalogItems(records) + [(rec.name.value, Normalise(rec))]
  {
    assert (records + [rec])[..|records|] == records;
    CatalogItemsAgree(records);
  }

  /** load_lootboxes: fill the catalog record by record. */
  method LoadLootboxes(records: seq<CatalogRecord>) returns (lootboxes: map<string, Lootbox>)
    ensures lootboxes == Lootboxes(records)
  {
    lootboxes := map[];
    for i := 0 to |records|
      invariant lootboxes == Lootboxes(records[..i])
    {
      assert records[..i + 1][..i] == records[..i];
      var rec := records[i];
      if !Truthy(rec.name) {
        continue;
      }
      var cost := CoerceCost(rec.cost);
      lootboxes := lootboxes[rec.name.value := Lootbox(cost, rec.items)];
    }
    assert records[..|records|] == records;
  }
}
