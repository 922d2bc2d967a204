/** The dashboard's trivia grid (app/admin/dashboard/components/TriviaGrid.tsx): the
    cards it keeps from its props and the local delete. The realtime listener only calls
    the parent's refresh and is left out. */
module TriviaGrid {
  import opened JsCore
  import Lists

  /** A trivia card as the props carry it. */
  datatype Card = Card(id: Option<string>, title: Option<string>)

  /** `t && t.id`: a card that is there and has a non-empty id. */
  predicate Keep(t: Option<Card>) {
    t.Some? && StrTruthy(t.value.id)
  }

  /** The props effect: `[]` when the props are not an array, else the cards that are there
      and have an id, in order. */
  function Clean(trivia: Option<seq<Option<Card>>>): (r: seq<Option<Card>>)
    ensures trivia.None? ==> r == []
    ensures forall i :: 0 <= i < |r| ==> Keep(r[i])
    ensures forall x :: x in r ==> x in trivia.GetOr([])
    ensures forall x :: x in trivia.GetOr([]) && Keep(x) ==> x in r
  {
    match trivia
    case None => []
    case Some(s) => Lists.Filter(s, Keep)
  }

  /** Cleaning keeps the order: it works on each part of a list. */
  lemma CleanConcat(a: seq<Option<Card>>, b: seq<Option<Card>>)
    ensures Clean(Some(a + b)) == Clean(Some(a)) + Clean(Some(b))
  {
    Lists.FilterConcat(a, b, Keep);
  }

  /** A single card is kept exactly when it is there and has an id. */
  lemma CleanOne(t: Option<Card>)
    ensures Clean(Some([t])) == if Keep(t) then [t] else []
  {
    Lists.FilterOne(t, Keep);
  }

  /** `t.id !== id`. */
  predicate OtherThan(id: string, t: Option<Card>) {
    !(t.Some? && t.value.id == Some(id))
  }

  /** `handleDelete`: the cards with that id leave the list; the rest keep their order. */
  function Delete(cards: seq<Option<Card>>, id: string): (r: seq<Option<Card>>)
    ensures forall x :: x in r ==> x in cards && OtherThan(id, x)
    ensures forall x :: x in cards && OtherThan(id, x) ==> x in r
    ensures forall i :: 0 <= i < |cards| && Keep(cards[i]) ==> (cards[i] in r <==> cards[i].value.id != Some(id))
  {
    var r := Lists.Filter(cards, Other(id));
    assert forall x :: x in r ==> OtherThan(id, x);
    r
  }

  /** `t => t.id !== id` as a value. */
  function Other(id: string): Option<Card> -> bool {
    t => OtherThan(id, t)
  }

  /** The order of what stays: deleting from two lists joined is deleting from each, and
      a single card stays exactly when it is not one with that id. */
  lemma DeleteKeepsOrder(a: seq<Option<Card>>, b: seq<Option<Card>>, t: Option<Card>, id: string)
    ensures Delete(a + b, id) == Delete(a, id) + Delete(b, id)
    ensures Delete([t], id) == if OtherThan(id, t) then [t] else []
  {
    Lists.FilterConcat(a, b, Other(id));
    Lists.FilterOne(t, Other(id));
  }
}
