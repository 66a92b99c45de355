/** The batched column read of the database catalog (catalogs/dbapi.py, `columns_for`). */
module BulkColumns {
  import opened Wrappers
  import opened Requests
  import Sorting

  /** A row as a query maps it: a column of `table`, or something the reader discards. */
  datatype Row = Row(isColumn: bool, table: string, name: string)

  /** The namespace one query is about. */
  datatype Place = Place(catalog: Option<string>, schema: Option<string>)

  /** The dialect's two column queries, as functions from their arguments to rows. */
  datatype Database = Database(
    columns: (string, string, string) -> seq<Row>,
    columnsIn: Option<(string, string, seq<string>) -> seq<Row>>)

  function Home(r: Relation): Place {
    Place(r.catalog, r.schema)
  }

  function OrEmpty(s: Option<string>): string {
    if s.None? then "" else s.value
  }

  function ColumnRows(rows: seq<Row>): seq<Row> {
    if rows == [] then []
    else
      var front, last := ColumnRows(rows[..|rows| - 1]), rows[|rows| - 1];
      if last.isColumn then front + [last] else front
  }

  /** The columns of `table` among `rows`, in the order the query gave them. */
  function Only(table: string, rows: seq<Row>): seq<Row> {
    if rows == [] then []
    else
      var front, last := Only(table, rows[..|rows| - 1]), rows[|rows| - 1];
      if last.isColumn && last.table == table then front + [last] else front
  }

  /** The tables asked of one place, in the order they were asked. */
  function Names(relations: seq<Relation>, place: Place): seq<string> {
    if relations == [] then []
    else
      var front, last := Names(relations[..|relations| - 1], place), relations[|relations| - 1];
      if Home(last) == place then front + [last.table] else front
  }

  /** One read of one relation. */
  function Single(db: Database, r: Relation): seq<Row> {
    ColumnRows(db.columns(OrEmpty(r.schema), r.table, OrEmpty(r.catalog)))
  }

  /** The one batched query a place gets. */
  function Batch(db: Database, relations: seq<Relation>, place: Place): seq<Row>
    requires db.columnsIn.Some?
  {
    db.columnsIn.value(OrEmpty(place.schema), OrEmpty(place.catalog), Names(relations, place))
  }

  /** What a relation is given: its own rows of its own place's query, when that place was asked at all. */
  function Own(db: Database, relations: seq<Relation>, r: Relation): seq<Row>
    requires db.columnsIn.Some?
  {
    if Names(relations, Home(r)) == [] then [] else Only(r.table, Batch(db, relations, Home(r)))
  }

  /** `wanted`: tables grouped by place, places in the order they were first asked. */
  method Group(relations: seq<Relation>) returns (order: seq<Place>, wanted: map<Place, seq<string>>)
    ensures Sorting.Distinct(order) && forall p :: p in order <==> p in wanted
    ensures forall p :: p in wanted <==> Names(relations, p) != []
    ensures forall p | p in wanted :: wanted[p] == Names(relations, p)
  {
    order, wanted := [], map[];
    for i := 0 to |relations|
      invariant Sorting.Distinct(order) && forall p :: p in order <==> p in wanted
      invariant forall p :: p in wanted <==> Names(relations[..i], p) != []
      invariant forall p | p in wanted :: wanted[p] == Names(relations[..i], p)
    {
      assert relations[..i + 1][..i] == relations[..i];
      var place := Home(relations[i]);
      if place in wanted {
        wanted := wanted[place := wanted[place] + [relations[i].table]];
      } else {
        order := order + [place];
        wanted := wanted[place := [relations[i].table]];
      }
    }
    assert relations[..|relations|] == relations;
  }

  method ColumnsFor(db: Database, relations: seq<Relation>) returns (found: map<Relation, seq<Row>>)
    ensures db.columnsIn.None? ==> forall r :: r in found <==> r in relations
    ensures db.columnsIn.None? ==> forall r | r in found :: found[r] == Single(db, r)
    ensures db.columnsIn.Some? ==> forall r :: r in found <==> Own(db, relations, r) != []
    ensures db.columnsIn.Some? ==> forall r | r in found :: found[r] == Own(db, relations, r)
  {
    if db.columnsIn.None? {
      found := map r | r in relations :: Single(db, r);
      return;
    }
    var order, wanted := Group(relations);
    found := map[];
    for i := 0 to |order|
      invariant forall r :: r in found <==> Home(r) in order[..i] && Own(db, relations, r) != []
      invariant forall r | r in found :: found[r] == Own(db, relations, r)
    {
      var place := order[i];
      var rows := db.columnsIn.value(OrEmpty(place.schema), OrEmpty(place.catalog), wanted[place]);
      found := Take(found, place, rows);
      assert order[..i + 1] == order[..i] + [place];
    }
    assert order[..|order|] == order;
  }

  /** One place's rows, each under the relation it was asked for as. */
  method Take(found: map<Relation, seq<Row>>, place: Place, rows: seq<Row>) returns (more: map<Relation, seq<Row>>)
    requires forall r | r in found :: Home(r) != place
    ensures forall r | Home(r) != place :: (r in more <==> r in found) && (r in more ==> more[r] == found[r])
    ensures forall r | Home(r) == place :: r in more <==> Only(r.table, rows) != []
    ensures forall r | r in more && Home(r) == place :: more[r] == Only(r.table, rows)
  {
    more := found;
    for i := 0 to |rows|
      invariant forall r | Home(r) != place :: (r in more <==> r in found) && (r in more ==> more[r] == found[r])
      invariant forall r | Home(r) == place :: r in more <==> Only(r.table, rows[..i]) != []
      invariant forall r | r in more && Home(r) == place :: more[r] == Only(r.table, rows[..i])
    {
      assert rows[..i + 1][..i] == rows[..i];
      if rows[i].isColumn {
        var key := Relation(place.catalog, place.schema, rows[i].table);
        more := more[key := (if key in more then more[key] else []) + [rows[i]]];
      }
    }
    assert rows[..|rows|] == rows;
  }

  /** The batched query says of each named table what the single query says of it. */
  ghost predicate Agrees(db: Database) {
    db.columnsIn.Some? ==>
      forall schema, catalog, names, table | table in names ::
        Only(table, db.columnsIn.value(schema, catalog, names)) == ColumnRows(db.columns(schema, table, catalog))
  }

  lemma {:induction false} AskedIsNamed(relations: seq<Relation>, r: Relation)
    requires r in relations
    ensures r.table in Names(relations, Home(r))
  {
    var n := |relations| - 1;
    if relations[n] != r {
      assert r in relations[..n];
      AskedIsNamed(relations[..n], r);
    }
  }

  /**
   When the two queries agree, each asked relation gets exactly the answer a read of it alone would
   give, being left out meaning the empty one. This is what a batching request counts on.
   */
  lemma BatchIsManySingles(db: Database, relations: seq<Relation>, r: Relation)
    requires Agrees(db) && db.columnsIn.Some? && r in relations
    ensures Own(db, relations, r) == Single(db, r)
  {
    AskedIsNamed(relations, r);
  }

  /** A relation whose place was never asked is never answered, whatever the queries return. */
  lemma OtherPlacesGetNothing(db: Database, relations: seq<Relation>, r: Relation)
    requires db.columnsIn.Some? && forall i | 0 <= i < |relations| :: Home(relations[i]) != Home(r)
    ensures Own(db, relations, r) == []
  {
    NothingNamed(relations, Home(r));
  }

  lemma {:induction false} NothingNamed(relations: seq<Relation>, place: Place)
    requires forall i | 0 <= i < |relations| :: Home(relations[i]) != place
    ensures Names(relations, place) == []
  {
    if relations != [] {
      NothingNamed(relations[..|relations| - 1], place);
    }
  }

  /** Each row given to a relation is a column row of its own place's query, in that query's order. */
  lemma {:induction false} OnlyKeepsOrder(table: string, rows: seq<Row>) returns (at: seq<nat>)
    ensures |at| == |Only(table, rows)|
    ensures forall i | 0 <= i < |at| :: at[i] < |rows| && rows[at[i]] == Only(table, rows)[i]
    ensures forall i, j | 0 <= i < j < |at| :: at[i] < at[j]
    ensures forall k | 0 <= k < |rows| :: rows[k].isColumn && rows[k].table == table <==> k in at
  {
    at := [];
    if rows != [] {
      var n := |rows| - 1;
      at := OnlyKeepsOrder(table, rows[..n]);
      if rows[n].isColumn && rows[n].table == table {
        at := at + [n];
      }
    }
  }
}
