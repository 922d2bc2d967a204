/** The page theme switch (components/ClientThemeWrapper.tsx): guest pages keep the
    wall's own background. */
module Theme {
  import opened JsCore
  import opened JsText

  /** `isGuestPostingRoute`: the path mentions `/guest`, `/post` or `/submit`. */
  predicate IsGuestRoute(path: string) {
    Contains(path, "/guest") || Contains(path, "/post") || Contains(path, "/submit")
  }

  /** The wrapper's choice; a missing path counts as `""`. */
  function GuestTheme(pathname: Option<string>): (r: bool)
    ensures pathname.None? ==> !r
    ensures pathname.Some? ==> (r <==> IsGuestRoute(pathname.value))
  {
    NoSlashNotGuest("");
    IsGuestRoute(pathname.GetOr(""))
  }

  /** Any path with one of the three segments in it is a guest route, wherever it
      stands. */
  lemma GuestSegmentAnywhere(a: string, w: string, b: string)
    requires w == "/guest" || w == "/post" || w == "/submit"
    ensures IsGuestRoute(a + w + b)
  {
    assert (a + w + b)[|a|..|a| + |w|] == w;
    ContainsAt(a + w + b, w, |a|);
  }

  /** A path without a `/` is never a guest route. */
  lemma NoSlashNotGuest(path: string)
    requires forall i :: 0 <= i < |path| ==> path[i] != '/'
    ensures !IsGuestRoute(path)
  {
    assert path + "" == path;
    ContainsAfter(path, "", "/guest");
    ContainsAfter(path, "", "/post");
    ContainsAfter(path, "", "/submit");
  }
}
