/** What a breaking change means for the rows of a dataset. */
module ContractMeaning {
  import opened Enums
  import opened Contracts

  ghost predicate Inhabited<V(!new)>(fits: (string, V) -> bool, t: string) {
    exists v :: fits(t, v)
  }

  /** Each of the types has a value, and no value has two of them. */
  ghost predicate Typed<V(!new)>(fits: (string, V) -> bool, types: set<string>) {
    && (forall t :: t in types ==> Inhabited(fits, t))
    && (forall t, u, v :: t in types && u in types && fits(t, v) && fits(u, v) ==> t == u)
  }

  /** The data types a version names. */
  function TypesOf(columns: Columns): set<string> {
    set n | n in columns :: columns[n].dataType
  }

  /** A row gives each column a value or a null. */
  type Row<V> = map<string, Option<V>>

  ghost predicate CellConforms<V(!new)>(fits: (string, V) -> bool, column: Column, cell: Option<V>) {
    match cell
    case None => column.nullable
    case Some(v) => fits(column.dataType, v)
  }

  ghost predicate Conforms<V(!new)>(fits: (string, V) -> bool, columns: Columns, row: Row<V>) {
    && row.Keys == columns.Keys
    && forall n :: n in columns ==> CellConforms(fits, columns[n], row[n])
  }

  /** The row as the new version sees it: its own columns, with nulls where the old row had none. */
  ghost function Extended<V>(row: Row<V>, newCols: Columns): Row<V> {
    map n | n in newCols :: if n in row then row[n] else None
  }

  ghost predicate BreaksSomeRow<V(!new)>(fits: (string, V) -> bool, oldCols: Columns, newCols: Columns) {
    exists row: Row<V> :: Conforms(fits, oldCols, row) && !Conforms(fits, newCols, Extended(row, newCols))
  }

  ghost function SomeValue<V(!new)>(fits: (string, V) -> bool, t: string): (v: V)
    requires Inhabited(fits, t)
    ensures fits(t, v)
  {
    var v :| fits(t, v);
    v
  }

  /** A conforming row with a value in every column but one, which is null. */
  ghost function FullRow<V(!new)>(fits: (string, V) -> bool, columns: Columns, nulls: set<string>): (row: Row<V>)
    requires forall t :: t in TypesOf(columns) ==> Inhabited(fits, t)
    requires forall n :: n in columns && n in nulls ==> columns[n].nullable
    ensures Conforms(fits, columns, row)
    ensures forall n :: n in columns ==> (row[n].None? <==> n in nulls)
  {
    map n | n in columns ::
      if n in nulls then None
      else
        assert columns[n].dataType in TypesOf(columns);
        Some(SomeValue(fits, columns[n].dataType))
  }

  lemma CompatibleBreaksNoRow<V(!new)>(fits: (string, V) -> bool, oldCols: Columns, newCols: Columns)
    requires Compatible(oldCols, newCols)
    ensures !BreaksSomeRow(fits, oldCols, newCols)
  {
    forall row: Row<V> | Conforms(fits, oldCols, row) ensures Conforms(fits, newCols, Extended(row, newCols)) {
      forall n | n in newCols ensures CellConforms(fits, newCols[n], Extended(row, newCols)[n]) {
        assert n in oldCols ==> CellConforms(fits, oldCols[n], row[n]);
      }
    }
  }

  lemma IncompatibleBreaksARow<V(!new)>(fits: (string, V) -> bool, oldCols: Columns, newCols: Columns)
    requires Typed(fits, TypesOf(oldCols) + TypesOf(newCols)) && oldCols.Keys <= newCols.Keys && !Compatible(oldCols, newCols)
    ensures BreaksSomeRow(fits, oldCols, newCols)
  {
    var n :| n in newCols && if n !in oldCols then !newCols[n].nullable
                             else newCols[n].dataType != oldCols[n].dataType
                                  || (oldCols[n].nullable && !newCols[n].nullable);
    var nulls := if n in oldCols && oldCols[n].nullable && !newCols[n].nullable then {n} else {};
    var row := FullRow(fits, oldCols, nulls);
    assert !CellConforms(fits, newCols[n], Extended(row, newCols)[n]) by {
      if n in oldCols && nulls == {} {
        assert row[n].Some? && CellConforms(fits, oldCols[n], row[n]);
      }
    }
  }

  /**
    A breaking change is reported exactly when a column was removed or some row that conforms to the
    old version, extended with nulls for the new columns, fails the new one.
   */
  lemma BreakingMeansSomeRowFails<V(!new)>(fits: (string, V) -> bool, oldColumns: seq<Column>, newColumns: seq<Column>)
    requires Typed(fits, TypesOf(Table(oldColumns)) + TypesOf(Table(newColumns)))
    ensures Compare(oldColumns, newColumns).hasBreaking <==>
            || !(Table(oldColumns).Keys <= Table(newColumns).Keys)
            || BreaksSomeRow(fits, Table(oldColumns), Table(newColumns))
  {
    hide Table, Compare, Typed, BreaksSomeRow;
    var oldCols, newCols := Table(oldColumns), Table(newColumns);
    BreakingIffIncompatible(oldColumns, newColumns);
    if Compatible(oldCols, newCols) {
      CompatibleBreaksNoRow(fits, oldCols, newCols);
    } else if oldCols.Keys <= newCols.Keys {
      IncompatibleBreaksARow(fits, oldCols, newCols);
    }
  }
}
