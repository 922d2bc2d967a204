/** The dashboard's poll grid (app/admin/dashboard/components/PollsPanel.tsx): the list it
    loads, the realtime reducer and the local delete. The debounced parent refresh and
    the database deletes are left out; they do not change the local list. */
module PollsPanel {
  import opened JsCore
  import Lists
  import Rows

  /** A `polls` row, as far as the grid keeps it. */
  datatype PollRow = PollRow(id: string, question: Option<string>, status: Option<string>)

  function PollId(p: PollRow): string {
    p.id
  }

  /** `loadPolls`: the fetched rows, or an empty list when the query gave no data. */
  function Load(fetched: Option<seq<PollRow>>): (r: seq<PollRow>)
    ensures fetched.None? ==> r == []
    ensures fetched.Some? ==> r == fetched.value
  {
    fetched.GetOr([])
  }

  /** The realtime reducer: insert first, update by id, delete by the old row's id. */
  function Receive(polls: seq<PollRow>, c: Rows.Change<PollRow>): (r: seq<PollRow>)
    ensures c.Inserted? ==> |r| == |polls| + 1 && r[0] == c.row && r[1..] == polls
    ensures c.Updated? ==> |r| == |polls| && Lists.Map(r, PollId) == Lists.Map(polls, PollId)
    ensures c.Updated? ==> forall i :: 0 <= i < |polls| && polls[i].id != c.row.id ==> r[i] == polls[i]
    ensures c.Updated? ==> forall i :: 0 <= i < |polls| && polls[i].id == c.row.id ==> r[i] == c.row
    ensures c.Deleted? ==> (forall x :: x in r ==> x in polls && x.id != c.oldId)
    ensures c.Deleted? ==> (forall x :: x in polls && x.id != c.oldId ==> x in r)
  {
    Rows.ApplyEffect(polls, PollId, c);
    var r := Rows.Apply(polls, PollId, c);
    assert c.Inserted? ==> r[1..] == polls;
    r
  }

  /** `handleDelete`: the poll leaves the list at once, whatever the database then does;
      the rest keep their order. */
  function Delete(polls: seq<PollRow>, id: string): (r: seq<PollRow>)
    ensures forall x :: x in r ==> x in polls && x.id != id
    ensures forall x :: x in polls && x.id != id ==> x in r
    ensures forall x :: x in r ==> x.id != id
  {
    Rows.RemoveId(polls, PollId, id)
  }

  /** The order of what stays: deleting from two lists joined is deleting from each, and
      a single poll stays exactly when its id differs. */
  lemma DeleteKeepsOrder(a: seq<PollRow>, b: seq<PollRow>, x: PollRow, id: string)
    ensures Delete(a + b, id) == Delete(a, id) + Delete(b, id)
    ensures Delete([x], id) == if x.id == id then [] else [x]
  {
    Rows.RemoveConcat(a, b, PollId, id);
    Rows.RemoveOne(x, PollId, id);
  }

  /** A local delete followed by its realtime echo changes nothing more. */
  lemma DeleteThenEcho(polls: seq<PollRow>, id: string)
    ensures Receive(Delete(polls, id), Rows.Deleted(id)) == Delete(polls, id)
  {
    var d := Delete(polls, id);
    forall i | 0 <= i < |d| ensures PollId(d[i]) != id {
      assert d[i] in d;
    }
    Rows.RemoveAbsent(d, PollId, id);
  }
}
