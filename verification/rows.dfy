/** The id-keyed list updates the dashboards share: removing the rows with an id,
    replacing the row with a new version's id, and a realtime change notification
    (`INSERT`, `UPDATE`, `DELETE`) applied to a list. Rows are generic; `idOf` reads a
    row's `id`. */
module Rows {
  import Lists

  /** The test `x => x.id !== id`. */
  function Other<T>(idOf: T -> string, id: string): T -> bool {
    x => idOf(x) != id
  }

  /** `rows.filter(x => x.id !== id)`. */
  function RemoveId<T>(rows: seq<T>, idOf: T -> string, id: string): (r: seq<T>)
    ensures |r| <= |rows|
    ensures forall x :: x in r ==> x in rows && idOf(x) != id
    ensures forall x :: x in rows && idOf(x) != id ==> x in r
  {
    Lists.Filter(rows, Other(idOf, id))
  }

  /** Removal keeps the order of what stays: removing from two lists joined is removing
      from each. */
  lemma RemoveConcat<T>(a: seq<T>, b: seq<T>, idOf: T -> string, id: string)
    ensures RemoveId(a + b, idOf, id) == RemoveId(a, idOf, id) + RemoveId(b, idOf, id)
  {
    Lists.FilterConcat(a, b, Other(idOf, id));
  }

  /** On one row, removal keeps the row exactly when its id differs. */
  lemma RemoveOne<T>(x: T, idOf: T -> string, id: string)
    ensures RemoveId([x], idOf, id) == if idOf(x) == id then [] else [x]
  {
    Lists.FilterOne(x, Other(idOf, id));
  }

  /** Removing an id no row has changes nothing. */
  lemma RemoveAbsent<T>(rows: seq<T>, idOf: T -> string, id: string)
    requires forall i :: 0 <= i < |rows| ==> idOf(rows[i]) != id
    ensures RemoveId(rows, idOf, id) == rows
  {
    Lists.FilterAll(rows, Other(idOf, id));
  }

  /** The test-and-swap of `x => x.id === n.id ? n : x`. */
  function Swap<T>(idOf: T -> string, n: T): T -> T {
    x => if idOf(x) == idOf(n) then n else x
  }

  /** `rows.map(x => x.id === n.id ? n : x)`. */
  function ReplaceId<T>(rows: seq<T>, idOf: T -> string, n: T): (r: seq<T>)
    ensures |r| == |rows|
    ensures forall i :: 0 <= i < |rows| && idOf(rows[i]) == idOf(n) ==> r[i] == n
    ensures forall i :: 0 <= i < |rows| && idOf(rows[i]) != idOf(n) ==> r[i] == rows[i]
  {
    Lists.Map(rows, Swap(idOf, n))
  }

  /** Replacing keeps every position's id, so the list keeps its order and its ids. */
  lemma ReplaceKeepsIds<T>(rows: seq<T>, idOf: T -> string, n: T)
    ensures Lists.Map(ReplaceId(rows, idOf, n), idOf) == Lists.Map(rows, idOf)
  {
    var r := ReplaceId(rows, idOf, n);
    assert forall i :: 0 <= i < |rows| ==> idOf(r[i]) == idOf(rows[i]);
  }

  /** A realtime change: the new row of an insert or update, the old row's id of a
      delete. */
  datatype Change<T> = Inserted(row: T) | Updated(row: T) | Deleted(oldId: string)

  /** The change applied to the list: an insert goes first, an update replaces the rows
      with its id, a delete removes them. */
  function Apply<T>(rows: seq<T>, idOf: T -> string, c: Change<T>): (r: seq<T>)
    ensures c.Inserted? ==> r == [c.row] + rows
    ensures c.Updated? ==> r == ReplaceId(rows, idOf, c.row)
    ensures c.Deleted? ==> r == RemoveId(rows, idOf, c.oldId)
  {
    match c
    case Inserted(n) => [n] + rows
    case Updated(n) => ReplaceId(rows, idOf, n)
    case Deleted(id) => RemoveId(rows, idOf, id)
  }

  /** After a delete no row has the id, and after an insert the new row is first. */
  lemma ApplyEffect<T>(rows: seq<T>, idOf: T -> string, c: Change<T>)
    ensures c.Deleted? ==> forall i :: 0 <= i < |Apply(rows, idOf, c)| ==> idOf(Apply(rows, idOf, c)[i]) != c.oldId
    ensures c.Inserted? ==> |Apply(rows, idOf, c)| == |rows| + 1 && Apply(rows, idOf, c)[0] == c.row
    ensures c.Updated? ==> Lists.Map(Apply(rows, idOf, c), idOf) == Lists.Map(rows, idOf)
  {
    if c.Updated? {
      ReplaceKeepsIds(rows, idOf, c.row);
    }
    if c.Deleted? {
      var r := Apply(rows, idOf, c);
      forall i | 0 <= i < |r| ensures idOf(r[i]) != c.oldId {
        assert r[i] in r;
      }
    }
  }
}
