/**
  Data contracts: comparing two schema versions, deciding what a change needs, and validating columns.

  A dictionary built from a list of columns keeps the order in which names first occur and, for each
  name, the last column that bears it.
 */
module Contracts {
  import opened Enums
  import opened Rearrangements

  datatype Column = Column(name: string, dataType: string, nullable: bool, description: string, pii: bool)

  /** Columns by name. */
  type Columns = map<string, Column>

  // ----- Dictionaries built from lists -----

  function Firsts(names: seq<string>): seq<string> {
    if names == [] then []
    else
      var front := Firsts(names[..|names| - 1]);
      var last := names[|names| - 1];
      if last in front then front else front + [last]
  }

  function NamesOf(columns: seq<Column>): seq<string> {
    if columns == [] then [] else NamesOf(columns[..|columns| - 1]) + [columns[|columns| - 1].name]
  }

  /** The keys in the order of iteration. */
  function Keys(columns: seq<Column>): seq<string> {
    Firsts(NamesOf(columns))
  }

  function Table(columns: seq<Column>): Columns {
    if columns == [] then map[]
    else Table(columns[..|columns| - 1])[columns[|columns| - 1].name := columns[|columns| - 1]]
  }

  lemma {:induction false} FirstsOnce(names: seq<string>)
    ensures Distinct(Firsts(names))
    ensures forall n :: n in Firsts(names) <==> n in names
  {
    if names != [] {
      FirstsOnce(names[..|names| - 1]);
      assert names == names[..|names| - 1] + [names[|names| - 1]];
    }
  }

  lemma {:induction false} TableHasNames(columns: seq<Column>)
    ensures forall n :: n in NamesOf(columns) <==> n in Table(columns)
    ensures forall n :: n in Table(columns) ==> Table(columns)[n].name == n
  {
    if columns != [] {
      TableHasNames(columns[..|columns| - 1]);
    }
  }

  lemma KeysAreTheTables(columns: seq<Column>)
    ensures Distinct(Keys(columns))
    ensures forall n :: n in Keys(columns) <==> n in Table(columns)
    ensures forall n :: n in Table(columns) ==> Table(columns)[n].name == n
  {
    FirstsOnce(NamesOf(columns));
    TableHasNames(columns);
  }

  /** `i` is the first place at which the name occurs. */
  ghost predicate IsFirst(names: seq<string>, i: int, n: string) {
    0 <= i < |names| && names[i] == n && forall k :: 0 <= k < i ==> names[k] != n
  }

  /** Iteration meets the names in the order in which they first occur. */
  lemma {:induction false} FirstsInOrder(names: seq<string>, i: nat, j: nat, a: int, b: int)
    requires i < j < |Firsts(names)| && IsFirst(names, a, Firsts(names)[i]) && IsFirst(names, b, Firsts(names)[j])
    ensures a < b
  {
    var n := |names| - 1;
    var front := names[..n];
    FirstsOnce(names);
    FirstsOnce(front);
    if j < |Firsts(front)| {
      assert Firsts(front)[i] in front && Firsts(front)[j] in front;
      FirstOfFront(names, a, Firsts(front)[i]);
      FirstOfFront(names, b, Firsts(front)[j]);
      FirstsInOrder(front, i, j, a, b);
    } else {
      assert Firsts(front)[i] in front;
      FirstOfFront(names, a, Firsts(front)[i]);
      assert forall k :: 0 <= k < n ==> names[k] in front;
    }
  }

  lemma FirstOfFront(names: seq<string>, a: int, n: string)
    requires IsFirst(names, a, n) && n in names[..|names| - 1]
    ensures IsFirst(names[..|names| - 1], a, n)
  {
    var k :| 0 <= k < |names| - 1 && names[..|names| - 1][k] == n;
    assert names[k] == n;
  }

  lemma {:induction false} NamesInPlace(columns: seq<Column>)
    ensures |NamesOf(columns)| == |columns| && forall i :: 0 <= i < |columns| ==> NamesOf(columns)[i] == columns[i].name
  {
    if columns != [] {
      NamesInPlace(columns[..|columns| - 1]);
    }
  }

  /** `i` is the last place at which a column of that name occurs. */
  ghost predicate IsLastNamed(columns: seq<Column>, i: int, n: string) {
    0 <= i < |columns| && columns[i].name == n && forall k :: i < k < |columns| ==> columns[k].name != n
  }

  /** The dictionary holds, for each name that occurs, the last column that bears it. */
  lemma {:induction false} TableKeepsLast(columns: seq<Column>, n: string)
    ensures n in Table(columns) <==> exists i :: IsLastNamed(columns, i, n)
    ensures forall i :: IsLastNamed(columns, i, n) ==> n in Table(columns) && Table(columns)[n] == columns[i]
  {
    if columns != [] {
      var last := |columns| - 1;
      var front := columns[..last];
      TableKeepsLast(front, n);
      if columns[last].name == n {
        assert IsLastNamed(columns, last, n);
      } else {
        assert forall i :: IsLastNamed(front, i, n) ==> IsLastNamed(columns, i, n);
        assert forall i :: IsLastNamed(columns, i, n) ==> IsLastNamed(front, i, n);
      }
    }
  }

  // ----- Changes between two versions -----

  datatype Change =
    | ColumnRemoved(column: string)
    | TypeChanged(column: string, oldType: string, newType: string)
    | NullableToNonNullable(column: string)
    | NonNullableColumnAdded(column: string)
    | NullableColumnAdded(column: string)

  datatype Analysis = Analysis(hasBreaking: bool, breaking: seq<Change>, nonBreaking: seq<Change>)

  function BreakingNew(name: string, newCol: Column): seq<Change> {
    if !newCol.nullable then [NonNullableColumnAdded(name)] else []
  }

  function NonBreakingNew(name: string, newCol: Column): seq<Change> {
    if newCol.nullable then [NullableColumnAdded(name)] else []
  }

  function BreakingModified(name: string, oldCol: Column, newCol: Column): seq<Change> {
    (if oldCol.dataType != newCol.dataType then [TypeChanged(name, oldCol.dataType, newCol.dataType)] else [])
    + (if oldCol.nullable && !newCol.nullable then [NullableToNonNullable(name)] else [])
  }

  function RemovedAmong(names: seq<string>, newCols: Columns): seq<Change> {
    if names == [] then []
    else
      RemovedAmong(names[..|names| - 1], newCols)
      + if names[|names| - 1] in newCols then [] else [ColumnRemoved(names[|names| - 1])]
  }

  function BreakingFor(name: string, oldCols: Columns, newCols: Columns): seq<Change> {
    if name !in newCols then []
    else if name !in oldCols then BreakingNew(name, newCols[name])
    else BreakingModified(name, oldCols[name], newCols[name])
  }

  function NonBreakingFor(name: string, oldCols: Columns, newCols: Columns): seq<Change> {
    if name in newCols && name !in oldCols then NonBreakingNew(name, newCols[name]) else []
  }

  function BreakingAmong(names: seq<string>, oldCols: Columns, newCols: Columns): seq<Change> {
    if names == [] then []
    else BreakingAmong(names[..|names| - 1], oldCols, newCols) + BreakingFor(names[|names| - 1], oldCols, newCols)
  }

  function NonBreakingAmong(names: seq<string>, oldCols: Columns, newCols: Columns): seq<Change> {
    if names == [] then []
    else NonBreakingAmong(names[..|names| - 1], oldCols, newCols) + NonBreakingFor(names[|names| - 1], oldCols, newCols)
  }

  function Compare(oldColumns: seq<Column>, newColumns: seq<Column>): Analysis {
    var oldCols, newCols := Table(oldColumns), Table(newColumns);
    var breaking := RemovedAmong(Keys(oldColumns), newCols) + BreakingAmong(Keys(newColumns), oldCols, newCols);
    Analysis(|breaking| > 0, breaking, NonBreakingAmong(Keys(newColumns), oldCols, newCols))
  }

  /** A list that helpers append to. */
  class ChangeList {
    var items: seq<Change>

    constructor ()
      ensures items == []
    {
      items := [];
    }

    method Append(change: Change)
      modifies this
      ensures items == old(items) + [change]
    {
      items := items + [change];
    }
  }

  method ClassifyNewColumn(name: string, newCol: Column, breaking: ChangeList, nonBreaking: ChangeList)
    requires breaking != nonBreaking
    modifies breaking, nonBreaking
    ensures breaking.items == old(breaking.items) + BreakingNew(name, newCol)
    ensures nonBreaking.items == old(nonBreaking.items) + NonBreakingNew(name, newCol)
  {
    if !newCol.nullable {
      breaking.Append(NonNullableColumnAdded(name));
    } else {
      nonBreaking.Append(NullableColumnAdded(name));
    }
  }

  method ClassifyModifiedColumn(name: string, oldCol: Column, newCol: Column, breaking: ChangeList)
    modifies breaking
    ensures breaking.items == old(breaking.items) + BreakingModified(name, oldCol, newCol)
  {
    if oldCol.dataType != newCol.dataType {
      breaking.Append(TypeChanged(name, oldCol.dataType, newCol.dataType));
    }
    if oldCol.nullable && !newCol.nullable {
      breaking.Append(NullableToNonNullable(name));
    }
  }

  /** The first loop: removed columns are breaking. */
  method CollectRemoved(oldKeys: seq<string>, newCols: Columns, breaking: ChangeList)
    modifies breaking
    ensures breaking.items == old(breaking.items) + RemovedAmong(oldKeys, newCols)
  {
    for i := 0 to |oldKeys|
      invariant breaking.items == old(breaking.items) + RemovedAmong(oldKeys[..i], newCols)
    {
      assert oldKeys[..i + 1][..i] == oldKeys[..i];
      if oldKeys[i] !in newCols {
        breaking.Append(ColumnRemoved(oldKeys[i]));
      }
    }
    assert oldKeys[..|oldKeys|] == oldKeys;
  }

  lemma NothingAmongNone(oldCols: Columns, newCols: Columns)
    ensures BreakingAmong([], oldCols, newCols) == [] && NonBreakingAmong([], oldCols, newCols) == []
  {
  }

  lemma OneMoreName(names: seq<string>, i: nat, oldCols: Columns, newCols: Columns)
    requires i < |names|
    ensures BreakingAmong(names[..i + 1], oldCols, newCols) ==
            BreakingAmong(names[..i], oldCols, newCols) + BreakingFor(names[i], oldCols, newCols)
    ensures NonBreakingAmong(names[..i + 1], oldCols, newCols) ==
            NonBreakingAmong(names[..i], oldCols, newCols) + NonBreakingFor(names[i], oldCols, newCols)
  {
    assert names[..i + 1][..i] == names[..i];
  }

  /** The second loop: every column of the new version is new or possibly modified. */
  method ClassifyColumns(newKeys: seq<string>, oldCols: Columns, newCols: Columns,
                         breaking: ChangeList, nonBreaking: ChangeList)
    requires breaking != nonBreaking && forall n :: n in newKeys ==> n in newCols
    modifies breaking, nonBreaking
    ensures breaking.items == old(breaking.items) + BreakingAmong(newKeys, oldCols, newCols)
    ensures nonBreaking.items == old(nonBreaking.items) + NonBreakingAmong(newKeys, oldCols, newCols)
  {
    hide BreakingNew, NonBreakingNew, BreakingModified, BreakingAmong, NonBreakingAmong;
    NothingAmongNone(oldCols, newCols);
    assert newKeys[..0] == [];
    for i := 0 to |newKeys|
      invariant breaking.items == old(breaking.items) + BreakingAmong(newKeys[..i], oldCols, newCols)
      invariant nonBreaking.items == old(nonBreaking.items) + NonBreakingAmong(newKeys[..i], oldCols, newCols)
    {
      var name := newKeys[i];
      OneMoreName(newKeys, i, oldCols, newCols);
      if name !in oldCols {
        ClassifyNewColumn(name, newCols[name], breaking, nonBreaking);
      } else {
        ClassifyModifiedColumn(name, oldCols[name], newCols[name], breaking);
      }
    }
    assert newKeys[..|newKeys|] == newKeys;
  }

  method DetectBreakingChanges(oldColumns: seq<Column>, newColumns: seq<Column>) returns (analysis: Analysis)
    ensures analysis == Compare(oldColumns, newColumns)
  {
    hide Table, Keys, RemovedAmong, BreakingAmong, NonBreakingAmong;
    var oldCols, newCols := Table(oldColumns), Table(newColumns);
    KeysAreTheTables(newColumns);
    var breaking := new ChangeList();
    var nonBreaking := new ChangeList();
    CollectRemoved(Keys(oldColumns), newCols, breaking);
    ClassifyColumns(Keys(newColumns), oldCols, newCols, breaking, nonBreaking);
    return Analysis(|breaking.items| > 0, breaking.items, nonBreaking.items);
  }

  // ----- What the lists contain -----

  lemma {:induction false} RemovedMembers(names: seq<string>, newCols: Columns, c: Change)
    ensures c in RemovedAmong(names, newCols) <==> c.ColumnRemoved? && c.column in names && c.column !in newCols
  {
    if names != [] {
      RemovedMembers(names[..|names| - 1], newCols, c);
      assert names == names[..|names| - 1] + [names[|names| - 1]];
    }
  }

  lemma BreakingNamesColumn(name: string, oldCols: Columns, newCols: Columns, c: Change)
    ensures c in BreakingFor(name, oldCols, newCols) ==> c.column == name
  {
  }

  lemma {:induction false} BreakingMembers(
    names: seq<string>, oldCols: Columns, newCols: Columns, c: Change)
    ensures c in BreakingAmong(names, oldCols, newCols) <==> c.column in names && c in BreakingFor(c.column, oldCols, newCols)
  {
    if names != [] {
      BreakingMembers(names[..|names| - 1], oldCols, newCols, c);
      assert names == names[..|names| - 1] + [names[|names| - 1]];
      BreakingNamesColumn(names[|names| - 1], oldCols, newCols, c);
      hide BreakingFor;
    }
  }

  lemma {:induction false} NonBreakingMembers(
    names: seq<string>, oldCols: Columns, newCols: Columns, c: Change)
    ensures c in NonBreakingAmong(names, oldCols, newCols)
            <==> c.column in names && c in NonBreakingFor(c.column, oldCols, newCols)
  {
    if names != [] {
      NonBreakingMembers(names[..|names| - 1], oldCols, newCols, c);
      assert names == names[..|names| - 1] + [names[|names| - 1]];
      assert forall n :: c in NonBreakingFor(n, oldCols, newCols) ==> c.column == n;
    }
  }

  /** The condition under which a change is reported as breaking. */
  ghost predicate IsBreaking(oldCols: Columns, newCols: Columns, c: Change) {
    match c
    case ColumnRemoved(n) => n in oldCols && n !in newCols
    case TypeChanged(n, oldType, newType) =>
      n in oldCols && n in newCols && oldCols[n].dataType == oldType && newCols[n].dataType == newType && oldType != newType
    case NullableToNonNullable(n) => n in oldCols && n in newCols && oldCols[n].nullable && !newCols[n].nullable
    case NonNullableColumnAdded(n) => n !in oldCols && n in newCols && !newCols[n].nullable
    case NullableColumnAdded(_) => false
  }

  /** Exactly these changes are reported, and as what. */
  lemma ReportedExactly(oldColumns: seq<Column>, newColumns: seq<Column>, c: Change)
    ensures c in Compare(oldColumns, newColumns).breaking <==> IsBreaking(Table(oldColumns), Table(newColumns), c)
    ensures c in Compare(oldColumns, newColumns).nonBreaking <==>
            && c.NullableColumnAdded? && c.column !in Table(oldColumns)
            && c.column in Table(newColumns) && Table(newColumns)[c.column].nullable
  {
    hide Table, Keys, RemovedAmong, BreakingAmong, NonBreakingAmong;
    var oldCols, newCols := Table(oldColumns), Table(newColumns);
    KeysAreTheTables(oldColumns);
    KeysAreTheTables(newColumns);
    RemovedMembers(Keys(oldColumns), newCols, c);
    BreakingMembers(Keys(newColumns), oldCols, newCols, c);
    NonBreakingMembers(Keys(newColumns), oldCols, newCols, c);
  }

  // ----- The order of the lists -----

  /** Iteration meets `m` before `n`. */
  ghost predicate Earlier(keys: seq<string>, m: string, n: string) {
    exists a, b :: 0 <= a < b < |keys| && keys[a] == m && keys[b] == n
  }

  lemma EarlierStays(keys: seq<string>, last: string)
    ensures forall m, n :: Earlier(keys, m, n) ==> Earlier(keys + [last], m, n)
    ensures forall m :: m in keys ==> Earlier(keys + [last], m, last)
  {
    var longer := keys + [last];
    forall m, n | Earlier(keys, m, n) ensures Earlier(longer, m, n) {
      var a, b :| 0 <= a < b < |keys| && keys[a] == m && keys[b] == n;
      assert longer[a] == m && longer[b] == n;
    }
    forall m | m in keys ensures Earlier(longer, m, last) {
      var a :| 0 <= a < |keys| && keys[a] == m;
      assert longer[a] == m && longer[|keys|] == last;
    }
  }

  /** Removed columns come first, in the old order; then the new order, and for one column its type before its nulls. */
  ghost predicate Follows(oldKeys: seq<string>, newKeys: seq<string>, c: Change, d: Change) {
    if c.ColumnRemoved? && d.ColumnRemoved? then Earlier(oldKeys, c.column, d.column)
    else if c.ColumnRemoved? || d.ColumnRemoved? then c.ColumnRemoved?
    else FollowsInNew(newKeys, c, d)
  }

  ghost predicate FollowsInNew(newKeys: seq<string>, c: Change, d: Change) {
    Earlier(newKeys, c.column, d.column) || (c.column == d.column && c.TypeChanged? && d.NullableToNonNullable?)
  }

  lemma {:induction false} RemovedInOrder(names: seq<string>, newCols: Columns, i: nat, j: nat)
    requires i < j < |RemovedAmong(names, newCols)|
    ensures var r := RemovedAmong(names, newCols);
            r[i].ColumnRemoved? && r[j].ColumnRemoved? && Earlier(names, r[i].column, r[j].column)
  {
    var front, last := names[..|names| - 1], names[|names| - 1];
    EarlierStays(front, last);
    assert names == front + [last];
    var r := RemovedAmong(front, newCols);
    RemovedMembers(front, newCols, r[i]);
    if j < |r| {
      RemovedInOrder(front, newCols, i, j);
    }
  }

  lemma BreakingForInOrder(name: string, oldCols: Columns, newCols: Columns)
    ensures var r := BreakingFor(name, oldCols, newCols);
            && |r| <= 2 && (forall k :: 0 <= k < |r| ==> r[k].column == name)
            && (|r| == 2 ==> r[0].TypeChanged? && r[1].NullableToNonNullable?)
  {
  }

  lemma {:induction false} BreakingInOrder(names: seq<string>, oldCols: Columns, newCols: Columns, i: nat, j: nat)
    requires i < j < |BreakingAmong(names, oldCols, newCols)|
    ensures var r := BreakingAmong(names, oldCols, newCols); FollowsInNew(names, r[i], r[j])
  {
    var front, last := names[..|names| - 1], names[|names| - 1];
    EarlierStays(front, last);
    assert names == front + [last];
    var r := BreakingAmong(front, oldCols, newCols);
    BreakingForInOrder(last, oldCols, newCols);
    hide Earlier, BreakingFor;
    if j < |r| {
      BreakingInOrder(front, oldCols, newCols, i, j);
    } else if i < |r| {
      BreakingMembers(front, oldCols, newCols, r[i]);
    }
  }

  lemma {:induction false} NonBreakingInOrder(names: seq<string>, oldCols: Columns, newCols: Columns, i: nat, j: nat)
    requires i < j < |NonBreakingAmong(names, oldCols, newCols)|
    ensures var r := NonBreakingAmong(names, oldCols, newCols); Earlier(names, r[i].column, r[j].column)
  {
    var front, last := names[..|names| - 1], names[|names| - 1];
    EarlierStays(front, last);
    assert names == front + [last];
    var r := NonBreakingAmong(front, oldCols, newCols);
    NonBreakingMembers(front, oldCols, newCols, r[i]);
    if j < |r| {
      NonBreakingInOrder(front, oldCols, newCols, i, j);
    }
  }

  lemma EarlierMeansDifferent(keys: seq<string>)
    requires Distinct(keys)
    ensures forall n :: !Earlier(keys, n, n)
  {
  }

  /** The changes are reported in the order of iteration, and each once. */
  lemma ReportedInOrder(oldColumns: seq<Column>, newColumns: seq<Column>)
    ensures var analysis := Compare(oldColumns, newColumns);
            && (forall i, j :: 0 <= i < j < |analysis.breaking| ==>
                  Follows(Keys(oldColumns), Keys(newColumns), analysis.breaking[i], analysis.breaking[j]))
            && (forall i, j :: 0 <= i < j < |analysis.nonBreaking| ==>
                  Earlier(Keys(newColumns), analysis.nonBreaking[i].column, analysis.nonBreaking[j].column))
            && Distinct(analysis.breaking) && Distinct(analysis.nonBreaking)
  {
    hide Table, Keys, RemovedAmong, BreakingAmong, NonBreakingAmong, Earlier;
    var analysis, oldCols, newCols := Compare(oldColumns, newColumns), Table(oldColumns), Table(newColumns);
    KeysAreTheTables(oldColumns);
    KeysAreTheTables(newColumns);
    EarlierMeansDifferent(Keys(oldColumns));
    EarlierMeansDifferent(Keys(newColumns));
    var removed, kept := RemovedAmong(Keys(oldColumns), newCols), BreakingAmong(Keys(newColumns), oldCols, newCols);
    forall i, j | 0 <= i < j < |analysis.breaking|
      ensures Follows(Keys(oldColumns), Keys(newColumns), analysis.breaking[i], analysis.breaking[j])
    {
      BreakingFollows(oldColumns, newColumns, i, j);
    }
    forall i, j | 0 <= i < j < |analysis.nonBreaking|
      ensures Earlier(Keys(newColumns), analysis.nonBreaking[i].column, analysis.nonBreaking[j].column)
    {
      NonBreakingInOrder(Keys(newColumns), oldCols, newCols, i, j);
    }
  }

  lemma BreakingFollows(oldColumns: seq<Column>, newColumns: seq<Column>, i: nat, j: nat)
    requires i < j < |Compare(oldColumns, newColumns).breaking|
    ensures var breaking := Compare(oldColumns, newColumns).breaking;
            Follows(Keys(oldColumns), Keys(newColumns), breaking[i], breaking[j])
  {
    hide Table, Keys, RemovedAmong, BreakingAmong, NonBreakingAmong, Earlier;
    var oldCols, newCols := Table(oldColumns), Table(newColumns);
    var removed, kept := RemovedAmong(Keys(oldColumns), newCols), BreakingAmong(Keys(newColumns), oldCols, newCols);
    if i < |removed| {
      RemovedMembers(Keys(oldColumns), newCols, removed[i]);
    } else {
      BreakingMembers(Keys(newColumns), oldCols, newCols, kept[i - |removed|]);
    }
    if j < |removed| {
      RemovedInOrder(Keys(oldColumns), newCols, i, j);
    } else {
      BreakingMembers(Keys(newColumns), oldCols, newCols, kept[j - |removed|]);
      if i >= |removed| {
        BreakingInOrder(Keys(newColumns), oldCols, newCols, i - |removed|, j - |removed|);
      }
    }
  }

  // ----- Compatibility -----

  ghost predicate Compatible(oldCols: Columns, newCols: Columns) {
    && (forall n :: n in oldCols ==>
          && n in newCols && newCols[n].dataType == oldCols[n].dataType
          && (oldCols[n].nullable ==> newCols[n].nullable))
    && (forall n :: n in newCols && n !in oldCols ==> newCols[n].nullable)
  }

  lemma BreakingIffIncompatible(oldColumns: seq<Column>, newColumns: seq<Column>)
    ensures Compare(oldColumns, newColumns).hasBreaking <==> !Compatible(Table(oldColumns), Table(newColumns))
  {
    hide Table, Keys, RemovedAmong, BreakingAmong, NonBreakingAmong;
    var oldCols, newCols := Table(oldColumns), Table(newColumns);
    var breaking := Compare(oldColumns, newColumns).breaking;
    if breaking != [] {
      ReportedExactly(oldColumns, newColumns, breaking[0]);
    } else {
      forall c: Change ensures !IsBreaking(oldCols, newCols, c) {
        ReportedExactly(oldColumns, newColumns, c);
      }
      NothingBreaking(oldCols, newCols);
    }
  }

  lemma NothingBreaking(oldCols: Columns, newCols: Columns)
    requires forall c :: !IsBreaking(oldCols, newCols, c)
    ensures Compatible(oldCols, newCols)
  {
    forall n | n in oldCols
      ensures n in newCols && newCols[n].dataType == oldCols[n].dataType && (oldCols[n].nullable ==> newCols[n].nullable)
    {
      assert !IsBreaking(oldCols, newCols, ColumnRemoved(n));
      assert !IsBreaking(oldCols, newCols, TypeChanged(n, oldCols[n].dataType, newCols[n].dataType));
      assert !IsBreaking(oldCols, newCols, NullableToNonNullable(n));
    }
    forall n | n in newCols && n !in oldCols ensures newCols[n].nullable {
      assert !IsBreaking(oldCols, newCols, NonNullableColumnAdded(n));
    }
  }

  // ----- The governance action -----

  datatype Action = NoChange | AutoApprove | RaciApproval | VetoEligible

  datatype Evaluation = Evaluation(
    requiresApproval: bool, analysis: Analysis, action: Action, breakingCount: Option<nat>)

  function EvaluateContractChange(oldColumns: seq<Column>, newColumns: seq<Column>): Evaluation {
    var analysis := Compare(oldColumns, newColumns);
    if !analysis.hasBreaking && analysis.nonBreaking == [] then Evaluation(false, analysis, NoChange, None)
    else if !analysis.hasBreaking then Evaluation(false, analysis, AutoApprove, None)
    else
      var hasRemoval := exists c :: c in analysis.breaking && c.ColumnRemoved?;
      Evaluation(true, analysis, if hasRemoval then VetoEligible else RaciApproval, Some(|analysis.breaking|))
  }

  /** What each action says about the two versions. */
  lemma ActionMeans(oldColumns: seq<Column>, newColumns: seq<Column>)
    ensures var oldCols, newCols := Table(oldColumns), Table(newColumns);
            var e := EvaluateContractChange(oldColumns, newColumns);
            && (e.requiresApproval <==> !Compatible(oldCols, newCols))
            && (e.action == VetoEligible <==> !(oldCols.Keys <= newCols.Keys))
            && (e.action == RaciApproval <==> oldCols.Keys <= newCols.Keys && !Compatible(oldCols, newCols))
            && (e.action == NoChange <==> Compatible(oldCols, newCols) && oldCols.Keys == newCols.Keys)
  {
    hide Table, Compare;
    var oldCols, newCols := Table(oldColumns), Table(newColumns);
    BreakingIffIncompatible(oldColumns, newColumns);
    forall c: Change
      ensures c in Compare(oldColumns, newColumns).breaking <==> IsBreaking(oldCols, newCols, c)
      ensures c in Compare(oldColumns, newColumns).nonBreaking <==>
              c.NullableColumnAdded? && c.column !in oldCols && c.column in newCols && newCols[c.column].nullable
    {
      ReportedExactly(oldColumns, newColumns, c);
    }
    HasBreakingIsNonEmpty(oldColumns, newColumns);
    if n :| n in oldCols && n !in newCols {
      assert ColumnRemoved(n) in Compare(oldColumns, newColumns).breaking;
    }
    if Compatible(oldCols, newCols) {
      if n :| n in newCols && n !in oldCols {
        assert NullableColumnAdded(n) in Compare(oldColumns, newColumns).nonBreaking;
      } else {
        NonEmptyHasMember(Compare(oldColumns, newColumns).nonBreaking);
      }
    }
  }

  lemma {:induction false} SizeOfDistinct<T>(s: seq<T>)
    requires Distinct(s)
    ensures |set c | c in s| == |s|
  {
    if s != [] {
      var front, last := s[..|s| - 1], s[|s| - 1];
      SizeOfDistinct(front);
      assert (set c | c in s) == (set c | c in front) + {last};
      assert last !in front;
    }
  }

  /** The evaluation hands on the analysis, and counts its breaking changes where there are any. */
  lemma BreakingAreCounted(oldColumns: seq<Column>, newColumns: seq<Column>) returns (changes: set<Change>)
    ensures forall c :: c in changes <==> IsBreaking(Table(oldColumns), Table(newColumns), c)
    ensures var e := EvaluateContractChange(oldColumns, newColumns);
            && e.analysis == Compare(oldColumns, newColumns)
            && e.breakingCount == if changes == {} then None else Some(|changes|)
  {
    hide Table, Keys, Follows, Earlier, IsBreaking;
    var breaking := Compare(oldColumns, newColumns).breaking;
    ReportedInOrder(oldColumns, newColumns);
    HasBreakingIsNonEmpty(oldColumns, newColumns);
    hide Compare;
    SizeOfDistinct(breaking);
    changes := set c | c in breaking;
    forall c ensures c in changes <==> IsBreaking(Table(oldColumns), Table(newColumns), c) {
      ReportedExactly(oldColumns, newColumns, c);
    }
    assert breaking != [] ==> breaking[0] in changes;
  }

  lemma NonEmptyHasMember(changes: seq<Change>)
    ensures changes == [] <==> forall c :: c !in changes
  {
    assert changes != [] ==> changes[0] in changes;
  }

  lemma HasBreakingIsNonEmpty(oldColumns: seq<Column>, newColumns: seq<Column>)
    ensures Compare(oldColumns, newColumns).hasBreaking <==> Compare(oldColumns, newColumns).breaking != []
  {
  }

  // ----- Compatibility is a preorder -----

  lemma CompatibleTransitive(a: Columns, b: Columns, c: Columns)
    requires Compatible(a, b) && Compatible(b, c)
    ensures Compatible(a, c)
  {
  }

  lemma {:induction false} ChainIsCompatible(versions: seq<seq<Column>>, i: nat, j: nat)
    requires i <= j < |versions|
    requires forall k :: i <= k < j ==> !EvaluateContractChange(versions[k], versions[k + 1]).requiresApproval
    ensures Compatible(Table(versions[i]), Table(versions[j]))
    decreases j - i
  {
    hide Table, EvaluateContractChange;
    if i < j {
      ChainIsCompatible(versions, i, j - 1);
      assert !EvaluateContractChange(versions[j - 1], versions[j - 1 + 1]).requiresApproval;
      ActionMeans(versions[j - 1], versions[j]);
      CompatibleTransitive(Table(versions[i]), Table(versions[j - 1]), Table(versions[j]));
    }
  }

  /** A history of changes none of which needed approval never adds up to one that does, between any two versions. */
  lemma UnapprovedHistoriesCompose(versions: seq<seq<Column>>)
    requires forall k :: 0 <= k < |versions| - 1 ==> !EvaluateContractChange(versions[k], versions[k + 1]).requiresApproval
    ensures forall i, j :: 0 <= i <= j < |versions| ==> !EvaluateContractChange(versions[i], versions[j]).requiresApproval
  {
    hide EvaluateContractChange, Table;
    forall i, j | 0 <= i <= j < |versions| ensures !EvaluateContractChange(versions[i], versions[j]).requiresApproval {
      ChainIsCompatible(versions, i, j);
      ActionMeans(versions[i], versions[j]);
    }
  }

  ghost predicate SameSchema(a: Columns, b: Columns) {
    && a.Keys == b.Keys
    && forall n :: n in a ==> a[n].dataType == b[n].dataType && a[n].nullable == b[n].nullable
  }

  /** `NoChange` in both directions means the same names, types and nullability, and conversely. */
  lemma NoChangeBothWaysIsSame(a: seq<Column>, b: seq<Column>)
    ensures EvaluateContractChange(a, b).action == NoChange && EvaluateContractChange(b, a).action == NoChange
            <==> SameSchema(Table(a), Table(b))
  {
    hide EvaluateContractChange, Table;
    ActionMeans(a, b);
    ActionMeans(b, a);
  }

  // ----- Validating columns -----

  datatype Mismatch = Mismatch(column: string, expected: string, actual: string)

  datatype Validation = Validation(
    valid: bool, missing: seq<string>, mismatches: seq<Mismatch>, extra: seq<string>)

  type ActualColumn = map<string, string>

  function ActualNames(actual: seq<ActualColumn>): seq<string>
    requires forall i :: 0 <= i < |actual| ==> "name" in actual[i]
  {
    if actual == [] then [] else ActualNames(actual[..|actual| - 1]) + [actual[|actual| - 1]["name"]]
  }

  function ActualTypes(actual: seq<ActualColumn>): map<string, string>
    requires forall i :: 0 <= i < |actual| ==> "name" in actual[i]
  {
    if actual == [] then map[]
    else
      var last := actual[|actual| - 1];
      ActualTypes(actual[..|actual| - 1])[last["name"] := if "data_type" in last then last["data_type"] else ""]
  }

  function Without<V>(names: seq<string>, table: map<string, V>): seq<string> {
    if names == [] then []
    else Without(names[..|names| - 1], table) + if names[|names| - 1] in table then [] else [names[|names| - 1]]
  }

  function MismatchFor(name: string, expected: Columns, actual: map<string, string>): seq<Mismatch> {
    if name in expected && name in actual && actual[name] != expected[name].dataType
    then [Mismatch(name, expected[name].dataType, actual[name])] else []
  }

  function MismatchesAmong(names: seq<string>, expected: Columns, actual: map<string, string>): seq<Mismatch> {
    if names == [] then []
    else MismatchesAmong(names[..|names| - 1], expected, actual) + MismatchFor(names[|names| - 1], expected, actual)
  }

  /** None stands for the error raised when a column has no name. */
  function Validate(columns: seq<Column>, actualColumns: seq<ActualColumn>): Option<Validation> {
    if exists i :: 0 <= i < |actualColumns| && "name" !in actualColumns[i] then None
    else
      var actual := ActualTypes(actualColumns);
      var missing := Without(Keys(columns), actual);
      var mismatches := MismatchesAmong(Keys(columns), Table(columns), actual);
      Some(Validation(missing == [] && mismatches == [], missing, mismatches,
                      Without(Firsts(ActualNames(actualColumns)), Table(columns))))
  }

  method ValidateData(columns: seq<Column>, actualColumns: seq<ActualColumn>) returns (r: Option<Validation>)
    ensures r == Validate(columns, actualColumns)
  {
    if exists i :: 0 <= i < |actualColumns| && "name" !in actualColumns[i] {
      return None;
    }
    var expected, actual := Table(columns), ActualTypes(actualColumns);
    var missing := Without(Keys(columns), actual);
    var extra := Without(Firsts(ActualNames(actualColumns)), expected);
    var names := Keys(columns);
    KeysAreTheTables(columns);
    var mismatches := [];
    for i := 0 to |names|
      invariant mismatches == MismatchesAmong(names[..i], expected, actual)
    {
      var name := names[i];
      assert names[..i + 1][..i] == names[..i] && name in expected;
      if name in actual && actual[name] != expected[name].dataType {
        mismatches := mismatches + [Mismatch(name, expected[name].dataType, actual[name])];
      }
    }
    assert names[..|names|] == names;
    return Some(Validation(missing == [] && mismatches == [], missing, mismatches, extra));
  }

  // ----- What validation reports -----

  /** `i` is the last place at which an actual column of that name occurs. */
  ghost predicate IsLastActual(actual: seq<ActualColumn>, i: int, n: string) {
    && 0 <= i < |actual| && "name" in actual[i] && actual[i]["name"] == n
    && forall k :: i < k < |actual| ==> !("name" in actual[k] && actual[k]["name"] == n)
  }

  ghost predicate HasActual(actual: seq<ActualColumn>, n: string) {
    exists i :: IsLastActual(actual, i, n)
  }

  /** The column's type, and the empty text if it states none. */
  function TypeStated(column: ActualColumn): string {
    if "data_type" in column then column["data_type"] else ""
  }

  lemma {:induction false} ActualTypesKeepLast(actual: seq<ActualColumn>, n: string)
    requires forall i :: 0 <= i < |actual| ==> "name" in actual[i]
    ensures n in ActualTypes(actual) <==> HasActual(actual, n)
    ensures forall i :: IsLastActual(actual, i, n) ==> n in ActualTypes(actual) && ActualTypes(actual)[n] == TypeStated(actual[i])
    ensures n in ActualNames(actual) <==> HasActual(actual, n)
  {
    if actual != [] {
      var last := |actual| - 1;
      var front := actual[..last];
      ActualTypesKeepLast(front, n);
      if actual[last]["name"] == n {
        assert IsLastActual(actual, last, n);
      } else {
        assert forall i :: IsLastActual(front, i, n) ==> IsLastActual(actual, i, n);
        assert forall i :: IsLastActual(actual, i, n) ==> IsLastActual(front, i, n);
      }
    }
  }

  lemma {:induction false} ActualNamesInPlace(actual: seq<ActualColumn>)
    requires forall i :: 0 <= i < |actual| ==> "name" in actual[i]
    ensures |ActualNames(actual)| == |actual|
    ensures forall i :: 0 <= i < |actual| ==> ActualNames(actual)[i] == actual[i]["name"]
  {
    if actual != [] {
      ActualNamesInPlace(actual[..|actual| - 1]);
    }
  }

  /** The mismatch concerns a column of both sides, and states the two types, which differ. */
  ghost predicate IsMismatch(columns: seq<Column>, actual: seq<ActualColumn>, m: Mismatch) {
    exists i, k ::
      && IsLastNamed(columns, i, m.column) && IsLastActual(actual, k, m.column)
      && m.expected == columns[i].dataType && m.actual == TypeStated(actual[k]) && m.expected != m.actual
  }

  lemma MismatchesMean(columns: seq<Column>, actual: seq<ActualColumn>, m: Mismatch)
    requires forall i :: 0 <= i < |actual| ==> "name" in actual[i]
    ensures m in MismatchFor(m.column, Table(columns), ActualTypes(actual)) <==> IsMismatch(columns, actual, m)
  {
    hide Table, ActualTypes, ActualNames, IsLastNamed, IsLastActual, TypeStated;
    TableKeepsLast(columns, m.column);
    ActualTypesKeepLast(actual, m.column);
    if m.column in Table(columns) && m.column in ActualTypes(actual) {
      var i :| IsLastNamed(columns, i, m.column);
      var k :| IsLastActual(actual, k, m.column);
      if m in MismatchFor(m.column, Table(columns), ActualTypes(actual)) {
        assert IsLastNamed(columns, i, m.column) && IsLastActual(actual, k, m.column);
      }
    }
  }

  /**
    Whatever the columns: validation raises exactly when one has no name, and otherwise reports
    exactly the missing, the mismatched and the extra ones; the last column of a name counts.
   */
  lemma ValidationMeans(columns: seq<Column>, actual: seq<ActualColumn>)
    ensures Validate(columns, actual).None? <==> exists i :: 0 <= i < |actual| && "name" !in actual[i]
    ensures Validate(columns, actual).Some? ==>
              var v := Validate(columns, actual).value;
              && (forall n :: n in v.missing <==> n in Table(columns) && !HasActual(actual, n))
              && (forall n :: n in v.extra <==> n !in Table(columns) && HasActual(actual, n))
              && (forall m :: m in v.mismatches <==> IsMismatch(columns, actual, m))
              && (v.valid <==> v.missing == [] && v.mismatches == [])
  {
    if Validate(columns, actual).Some? {
      hide Table, Keys, ActualTypes, ActualNames, Firsts, Without, MismatchesAmong, MismatchFor, HasActual, IsMismatch;
      var types, names := ActualTypes(actual), Firsts(ActualNames(actual));
      KeysAreTheTables(columns);
      FirstsOnce(ActualNames(actual));
      forall n
        ensures n in Without(Keys(columns), types) <==> n in Table(columns) && !HasActual(actual, n)
        ensures n in Without(names, Table(columns)) <==> n !in Table(columns) && HasActual(actual, n)
      {
        ActualTypesKeepLast(actual, n);
        WithoutMembers(Keys(columns), types, n);
        WithoutMembers(names, Table(columns), n);
      }
      forall m ensures m in MismatchesAmong(Keys(columns), Table(columns), types) <==> IsMismatch(columns, actual, m) {
        MismatchMembers(Keys(columns), Table(columns), types, m);
        MismatchesMean(columns, actual, m);
        MismatchNeedsColumn(m, columns, types);
      }
    }
  }

  lemma MismatchNeedsColumn(m: Mismatch, columns: seq<Column>, types: map<string, string>)
    ensures m in MismatchFor(m.column, Table(columns), types) ==> m.column in Table(columns)
  {
    hide Table;
  }

  lemma {:induction false} WithoutInOrder<V>(names: seq<string>, table: map<string, V>, i: nat, j: nat)
    requires i < j < |Without(names, table)|
    ensures Earlier(names, Without(names, table)[i], Without(names, table)[j])
  {
    var front, last := names[..|names| - 1], names[|names| - 1];
    EarlierStays(front, last);
    assert names == front + [last];
    var r := Without(front, table);
    WithoutMembers(front, table, r[i]);
    if j < |r| {
      WithoutInOrder(front, table, i, j);
    }
  }

  lemma {:induction false} MismatchesInOrder(
    names: seq<string>, expected: Columns, actual: map<string, string>, i: nat, j: nat)
    requires i < j < |MismatchesAmong(names, expected, actual)|
    ensures var r := MismatchesAmong(names, expected, actual); Earlier(names, r[i].column, r[j].column)
  {
    var front, last := names[..|names| - 1], names[|names| - 1];
    EarlierStays(front, last);
    assert names == front + [last];
    var r := MismatchesAmong(front, expected, actual);
    MismatchMembers(front, expected, actual, r[i]);
    if j < |r| {
      MismatchesInOrder(front, expected, actual, i, j);
    }
  }

  /** The three lists follow the order in which the names first occur. */
  lemma ValidationInOrder(columns: seq<Column>, actual: seq<ActualColumn>)
    requires Validate(columns, actual).Some?
    ensures var v := Validate(columns, actual).value;
            && (forall i, j :: 0 <= i < j < |v.missing| ==> Earlier(Keys(columns), v.missing[i], v.missing[j]))
            && (forall i, j :: 0 <= i < j < |v.mismatches| ==>
                  Earlier(Keys(columns), v.mismatches[i].column, v.mismatches[j].column))
            && (forall i, j :: 0 <= i < j < |v.extra| ==>
                  Earlier(Firsts(ActualNames(actual)), v.extra[i], v.extra[j]))
  {
    hide Table, Keys, ActualTypes, ActualNames, Firsts, Without, MismatchesAmong, Earlier;
    var v, types, names := Validate(columns, actual).value, ActualTypes(actual), Firsts(ActualNames(actual));
    forall i, j | 0 <= i < j < |v.missing| ensures Earlier(Keys(columns), v.missing[i], v.missing[j]) {
      WithoutInOrder(Keys(columns), types, i, j);
    }
    forall i, j | 0 <= i < j < |v.mismatches|
      ensures Earlier(Keys(columns), v.mismatches[i].column, v.mismatches[j].column)
    {
      MismatchesInOrder(Keys(columns), Table(columns), types, i, j);
    }
    forall i, j | 0 <= i < j < |v.extra| ensures Earlier(names, v.extra[i], v.extra[j]) {
      WithoutInOrder(names, Table(columns), i, j);
    }
  }

  // ----- The validator agrees with the comparison -----

  /** The columns of a schema, described as the validator takes them. */
  function Described(columns: seq<Column>): (actual: seq<ActualColumn>)
    ensures |actual| == |columns|
    ensures forall i :: 0 <= i < |actual| ==>
              "name" in actual[i] && "data_type" in actual[i]
              && actual[i]["name"] == columns[i].name && actual[i]["data_type"] == columns[i].dataType
  {
    assert "name"[0] != "data_type"[0];
    seq(|columns|, i requires 0 <= i < |columns| => map["name" := columns[i].name, "data_type" := columns[i].dataType])
  }

  lemma {:induction false} DescribedReadsBack(columns: seq<Column>)
    ensures ActualNames(Described(columns)) == NamesOf(columns)
    ensures ActualTypes(Described(columns)).Keys == Table(columns).Keys
    ensures forall n :: n in Table(columns) ==> ActualTypes(Described(columns))[n] == Table(columns)[n].dataType
  {
    if columns != [] {
      var front := columns[..|columns| - 1];
      DescribedReadsBack(front);
      assert Described(columns)[..|columns| - 1] == Described(front);
    }
  }

  lemma {:induction false} WithoutKeepsOrder<V>(names: seq<string>, table: map<string, V>, newCols: Columns)
    requires table.Keys == newCols.Keys
    ensures |RemovedAmong(names, newCols)| == |Without(names, table)|
    ensures forall i :: 0 <= i < |Without(names, table)| ==>
              RemovedAmong(names, newCols)[i] == ColumnRemoved(Without(names, table)[i])
  {
    if names != [] {
      WithoutKeepsOrder(names[..|names| - 1], table, newCols);
    }
  }

  lemma {:induction false} MismatchMembers(
    names: seq<string>, expected: Columns, actual: map<string, string>, m: Mismatch)
    ensures m in MismatchesAmong(names, expected, actual) <==> m.column in names && m in MismatchFor(m.column, expected, actual)
  {
    if names != [] {
      MismatchMembers(names[..|names| - 1], expected, actual, m);
      assert names == names[..|names| - 1] + [names[|names| - 1]];
    }
  }

  lemma {:induction false} WithoutMembers<V>(names: seq<string>, table: map<string, V>, n: string)
    ensures n in Without(names, table) <==> n in names && n !in table
  {
    if names != [] {
      WithoutMembers(names[..|names| - 1], table, n);
      assert names == names[..|names| - 1] + [names[|names| - 1]];
    }
  }

  lemma DescribedNamesAreKeys(columns: seq<Column>)
    ensures Firsts(ActualNames(Described(columns))) == Keys(columns)
  {
    DescribedReadsBack(columns);
  }

  /**
    Validating the new version's columns against the old contract reports as missing the removed
    columns, in the same order, as mismatched exactly the changed types, and as extra the added ones.
   */
  lemma ValidatorAgreesWithComparison(oldColumns: seq<Column>, newColumns: seq<Column>)
    ensures Validate(oldColumns, Described(newColumns)).Some?
    ensures var v, analysis := Validate(oldColumns, Described(newColumns)).value, Compare(oldColumns, newColumns);
            && |v.missing| <= |analysis.breaking|
            && (forall i :: 0 <= i < |v.missing| ==> analysis.breaking[i] == ColumnRemoved(v.missing[i]))
            && (forall n :: n in v.missing <==> ColumnRemoved(n) in analysis.breaking)
            && (forall m :: m in v.mismatches <==> TypeChanged(m.column, m.expected, m.actual) in analysis.breaking)
            && (forall n :: n in v.extra <==>
                  NonNullableColumnAdded(n) in analysis.breaking || NullableColumnAdded(n) in analysis.nonBreaking)
  {
    hide Table, Keys, ActualTypes, ActualNames, Firsts, Without, MismatchesAmong, RemovedAmong, BreakingAmong,
      NonBreakingAmong, Described;
    var actual := ActualTypes(Described(newColumns));
    DescribedReadsBack(newColumns);
    DescribedNamesAreKeys(newColumns);
    KeysAreTheTables(oldColumns);
    KeysAreTheTables(newColumns);
    WithoutKeepsOrder(Keys(oldColumns), actual, Table(newColumns));
    forall n
      ensures n in Without(Keys(oldColumns), actual) <==> ColumnRemoved(n) in Compare(oldColumns, newColumns).breaking
    {
      WithoutMembers(Keys(oldColumns), actual, n);
      ReportedExactly(oldColumns, newColumns, ColumnRemoved(n));
    }
    forall m
      ensures m in MismatchesAmong(Keys(oldColumns), Table(oldColumns), actual)
              <==> TypeChanged(m.column, m.expected, m.actual) in Compare(oldColumns, newColumns).breaking
    {
      MismatchMembers(Keys(oldColumns), Table(oldColumns), actual, m);
      ReportedExactly(oldColumns, newColumns, TypeChanged(m.column, m.expected, m.actual));
    }
    forall n
      ensures n in Without(Keys(newColumns), Table(oldColumns)) <==>
              || NonNullableColumnAdded(n) in Compare(oldColumns, newColumns).breaking
              || NullableColumnAdded(n) in Compare(oldColumns, newColumns).nonBreaking
    {
      WithoutMembers(Keys(newColumns), Table(oldColumns), n);
      ReportedExactly(oldColumns, newColumns, NonNullableColumnAdded(n));
      ReportedExactly(oldColumns, newColumns, NullableColumnAdded(n));
    }
  }

  /** The new columns are valid for the old contract exactly when no column was removed and no type changed. */
  lemma ValidIffNothingRemovedOrRetyped(oldColumns: seq<Column>, newColumns: seq<Column>)
    ensures Validate(oldColumns, Described(newColumns)).Some?
    ensures Validate(oldColumns, Described(newColumns)).value.valid <==>
            forall c :: c in Compare(oldColumns, newColumns).breaking ==> !c.ColumnRemoved? && !c.TypeChanged?
  {
    hide Validate, Compare, Described;
    ValidatorAgreesWithComparison(oldColumns, newColumns);
    ValidIsEmptyLists(oldColumns, Described(newColumns));
    var v, breaking := Validate(oldColumns, Described(newColumns)).value, Compare(oldColumns, newColumns).breaking;
    if v.valid {
      forall n, oldType, newType ensures TypeChanged(n, oldType, newType) !in breaking {
        assert Mismatch(n, oldType, newType) !in v.mismatches;
      }
    } else if v.missing != [] {
      assert ColumnRemoved(v.missing[0]) in breaking;
    } else {
      var m := v.mismatches[0];
      assert m in v.mismatches;
      assert TypeChanged(m.column, m.expected, m.actual) in breaking;
    }
  }

  lemma ValidIsEmptyLists(columns: seq<Column>, actual: seq<ActualColumn>)
    requires Validate(columns, actual).Some?
    ensures var v := Validate(columns, actual).value; v.valid <==> v.missing == [] && v.mismatches == []
  {
  }
}
