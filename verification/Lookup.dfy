/** What constraining a child by a column does to the rows that it takes and to lookups by that column. */
module Lookup {
  import opened Options
  import opened Identifiers
  import opened Tables
  import opened Operations
  import opened Conservation
  import opened Soundness
  import opened Routing

  /** Rows with the key in the column. */
  function Matching(rows: seq<Row>, column: string, key: int): seq<Row> {
    if rows == [] then
      []
    else
      Matching(rows[..|rows| - 1], column, key)
      + if Value(rows[|rows| - 1], column) == Some(key) then [rows[|rows| - 1]] else []
  }

  /** A lookup that reads the children listed. */
  function Scan(children: map<string, Partition>, listing: seq<string>, column: string, key: int): seq<Row>
    requires forall child | child in listing :: child in children
  {
    if listing == [] then []
    else Matching(children[listing[0]].rows, column, key) + Scan(children, listing[1..], column, key)
  }

  /** The recorded range of the column rules the key out. */
  predicate Excludes(partition: Partition, column: string, key: int) {
    column in partition.checks && !Passes(partition.checks[column], Some(key))
  }

  /** The children that pruning leaves to be read. */
  function Pruned(children: map<string, Partition>, listing: seq<string>, column: string, key: int): (left: seq<string>)
    requires forall child | child in listing :: child in children
    ensures forall child :: child in left <==> child in listing && !Excludes(children[child], column, key)
  {
    if listing == [] then []
    else
      var rest := Pruned(children, listing[1..], column, key);
      if Excludes(children[listing[0]], column, key) then rest else [listing[0]] + rest
  }

  lemma {:induction false} MatchingIsAll(rows: seq<Row>, column: string, key: int, row: Row)
    ensures multiset(Matching(rows, column, key))[row] ==
      if Value(row, column) == Some(key) then multiset(rows)[row] else 0
  {
    hide Value;
    if rows != [] {
      var init, last := rows[..|rows| - 1], rows[|rows| - 1];
      MatchingIsAll(init, column, key, row);
      assert rows == init + [last];
    }
  }

  /** A lookup finds every row of the children with the key, as often as it is there, and no other. */
  lemma {:induction false} ScanIsAll(
    children: map<string, Partition>, listing: seq<string>, column: string, key: int, row: Row)
    requires forall child | child in listing :: child in children
    ensures multiset(Scan(children, listing, column, key))[row] ==
      if Value(row, column) == Some(key) then multiset(InOrder(children, listing))[row] else 0
  {
    hide Value, Matching;
    if listing != [] {
      ScanIsAll(children, listing[1..], column, key, row);
      MatchingIsAll(children[listing[0]].rows, column, key, row);
    }
  }

  lemma {:induction false} ExcludedHasNone(partition: Partition, rows: seq<Row>, column: string, key: int)
    requires forall row | row in rows :: Admits(partition, row)
    requires Excludes(partition, column, key)
    ensures Matching(rows, column, key) == []
  {
    hide Value;
    if rows != [] {
      ExcludedHasNone(partition, rows[..|rows| - 1], column, key);
      assert Admits(partition, rows[|rows| - 1]);
    }
  }

  lemma {:induction false} PruningIsExact(t: Table, listing: seq<string>, column: string, key: int)
    requires Sound(t) && forall child | child in listing :: child in t.children
    ensures Scan(t.children, Pruned(t.children, listing, column, key), column, key) ==
      Scan(t.children, listing, column, key)
  {
    hide Sound, Matching, Excludes;
    if listing != [] {
      PruningIsExact(t, listing[1..], column, key);
      var rest := Pruned(t.children, listing[1..], column, key);
      if Excludes(t.children[listing[0]], column, key) {
        ExcludedChildHasNone(t, listing[0], column, key);
      } else {
        assert ([listing[0]] + rest)[1..] == rest;
      }
    }
  }

  lemma ExcludedChildHasNone(t: Table, child: string, column: string, key: int)
    requires Sound(t) && child in t.children && Excludes(t.children[child], column, key)
    ensures Matching(t.children[child].rows, column, key) == []
  {
    hide Within, Admits, Excludes, Matching;
    var g, p: nat :| SoundChild(t.name, child, t.children[child], g, p);
    ExcludedHasNone(t.children[child], t.children[child].rows, column, key);
  }

  /** After any run, constraining included, a lookup that skips the children whose recorded range rules
      the key out finds the same rows in the same order as one that reads every child. */
  lemma PrunedLookup(t: Table, ops: seq<Operation>, column: string, key: int)
    requires Sound(t) && AllSupported(ops)
    ensures var children := Run(t, ops).children;
      forall listing: seq<string> | (forall child | child in listing :: child in children) ::
        Scan(children, Pruned(children, listing, column, key), column, key) == Scan(children, listing, column, key)
  {
    hide Sound, AllSupported, Scan, Pruned, Run;
    RunKeepsSound(t, ops);
    var t' := Run(t, ops);
    forall listing: seq<string> | forall child | child in listing :: child in t'.children
      ensures Scan(t'.children, Pruned(t'.children, listing, column, key), column, key) ==
        Scan(t'.children, listing, column, key)
    {
      PruningIsExact(t', listing, column, key);
    }
  }

  /** The row has a value in the column: the clock always, an id if it is not NULL. */
  predicate Has(row: Row, column: string) {
    column == "clock" || column in row.ids
  }

  function Id(row: Row, column: string): int
    requires Has(row, column)
  {
    if column == "clock" then row.clock else row.ids[column]
  }

  /** The value is not less than the least and not greater than the greatest of the rows'. */
  predicate InRange(rows: seq<Row>, column: string, value: int) {
    && (exists row | row in rows :: Has(row, column) && Id(row, column) <= value)
    && (exists row | row in rows :: Has(row, column) && value <= Id(row, column))
  }

  /** The CHECKs on other columns. */
  predicate AdmitsBut(partition: Partition, column: string, row: Row) {
    forall other | other in partition.checks && other != column :: Passes(partition.checks[other], Value(row, other))
  }

  lemma ValueIs(row: Row, column: string)
    ensures Value(row, column).Some? <==> Has(row, column)
    ensures Has(row, column) ==> Value(row, column).value == Id(row, column)
  {
  }

  lemma RangeOfSpan(rows: seq<Row>, column: string, check: Check, value: int)
    requires Spans(check, Values(rows, column))
    ensures InRange(rows, column, value) <==> Passes(check, Some(value))
  {
    hide Value, Values, Id, Has;
    ValuesOf(rows, column, Row(0, map[], ""));
    var least :| least in rows && Value(least, column) == Some(check.lo);
    var greatest :| greatest in rows && Value(greatest, column) == Some(check.hi);
    ValueIs(least, column);
    ValueIs(greatest, column);
    forall row | row in rows && Has(row, column)
      ensures check.lo <= Id(row, column) <= check.hi
    {
      ValuesOf(rows, column, row);
      ValueIs(row, column);
    }
  }

  /** A child is accepted for constraining exactly if some row of it has a value in the column. */
  lemma AcceptedExactly(t: Table, child: string, column: string)
    ensures WithConstraint(t, child, column).Some? <==>
      var name, key := AsChild(child), AsColumn(column);
      && name.Name? && key.Name? && name.value in t.children
      && exists row | row in t.children[name.value].rows :: Has(row, key.value)
  {
    hide AsChild, AsColumn, Value, Values, Has, MinMax;
    var name, key := AsChild(child), AsColumn(column);
    if name.Name? && key.Name? && name.value in t.children {
      SomeHas(t.children[name.value].rows, key.value);
    }
  }

  lemma {:induction false} SomeHas(rows: seq<Row>, column: string)
    ensures Values(rows, column) != [] <==> exists row | row in rows :: Has(row, column)
  {
    hide Value, Has;
    if rows != [] {
      SomeHas(rows[..|rows| - 1], column);
      ValueIs(rows[|rows| - 1], column);
    }
  }

  /** Constraining touches nothing but the child's CHECK on the column. From then on the child takes a
      row exactly if the CHECKs on other columns pass and the value is NULL or in the range of the values
      stored; and a lookup by the column reads the child exactly if its key is in that range. */
  lemma ConstrainedExactly(t: Table, child: string, column: string)
    requires WithConstraint(t, child, column).Some?
    ensures var t', name, key := WithConstraint(t, child, column).value, AsChild(child).value, AsColumn(column).value;
      var before, after := t.children[name], t'.children[name];
      && t' == t.(children := t.children[name := after])
      && after.rows == before.rows && after.first == before.first
      && (forall row :: Admits(after, row) <==>
            AdmitsBut(before, key, row) && (Has(row, key) ==> InRange(before.rows, key, Id(row, key))))
      && (forall value :: Excludes(after, key, value) <==> !InRange(before.rows, key, value))
  {
    hide AsChild, AsColumn, Value, Values, Has, Id, InRange, Passes;
    var t', name, key := WithConstraint(t, child, column).value, AsChild(child).value, AsColumn(column).value;
    var before, after := t.children[name], t'.children[name];
    var check := MinMax(Values(before.rows, key));
    forall value
      ensures InRange(before.rows, key, value) <==> Passes(check, Some(value))
    {
      RangeOfSpan(before.rows, key, check, value);
    }
    forall row
      ensures Admits(after, row) <==>
        AdmitsBut(before, key, row) && (Has(row, key) ==> InRange(before.rows, key, Id(row, key)))
    {
      ValueIs(row, key);
      NullPasses(check);
      assert Admits(after, row) <==> AdmitsBut(before, key, row) && Passes(check, Value(row, key));
    }
  }

  lemma NullPasses(check: Check)
    ensures Passes(check, None)
  {
  }

  /** A row that the new range rejects goes to the parent, unless another trigger's child takes it. */
  lemma RejectedGoesToParent(t: Table, child: string, column: string, row: Row)
    requires WithConstraint(t, child, column).Some?
    requires var name, key := AsChild(child).value, AsColumn(column).value;
      && Has(row, key) && !InRange(t.children[name].rows, key, Id(row, key))
      && forall trigger | trigger in t.triggers ::
           var other := RouteName(t.name, t.triggers[trigger], row.clock);
           other == name || other !in t.children || !Admits(t.children[other], row)
    ensures var t' := WithConstraint(t, child, column).value; Inserted(t', row) == t'.(parent := t'.parent + [row])
  {
    hide AsChild, AsColumn, WithConstraint, RouteName, Has, Id, InRange, Admits;
    var t' := WithConstraint(t, child, column).value;
    ConstrainedExactly(t, child, column);
    DestinationIsFirst(t', row);
  }
}
