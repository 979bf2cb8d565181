/**
 * The application context's state rules: the bounded list of recent images
 * (newest first, at most ten), the light/dark theme toggle, and the
 * notification list with its removal by id. Persistence in local storage and
 * the five-second removal timer are left out; the notification id, which
 * the source takes from the clock, is a parameter.
 */
module AppContext {
  import opened Base

  const MaxRecent: nat := 10

  /** `addRecentImage(image)`: the image in front, then the previous list, cut to ten entries. */
  function AddRecentImage<T>(current: seq<T>, image: T): (r: seq<T>)
    ensures |r| == if |current| + 1 < MaxRecent then |current| + 1 else MaxRecent
    ensures r[0] == image
    ensures forall i :: 1 <= i < |r| ==> r[i] == current[i - 1]
  {
    ([image] + current)[..if |current| + 1 < MaxRecent then |current| + 1 else MaxRecent]
  }

  /** After two additions the later image comes first and the earlier one second. */
  lemma NewestFirst<T>(current: seq<T>, a: T, b: T)
    ensures AddRecentImage(AddRecentImage(current, a), b)[..2] == [b, a]
  {
  }

  /** An image added is still in the list after fewer than ten further additions. */
  lemma {:induction false} KeptForNineMore<T>(current: seq<T>, image: T, later: seq<T>)
    requires |later| < MaxRecent
    ensures var l := AddAll(AddRecentImage(current, image), later);
            |later| < |l| && l[|later|] == image
  {
    if |later| > 0 {
      KeptForNineMore(current, image, later[..|later| - 1]);
      var prev := AddAll(AddRecentImage(current, image), later[..|later| - 1]);
      assert AddAll(AddRecentImage(current, image), later) == AddRecentImage(prev, later[|later| - 1]);
    }
  }

  /** Adding the images of `later` one after the other. */
  function AddAll<T>(current: seq<T>, later: seq<T>): (r: seq<T>)
    ensures |later| > 0 ==> |r| >= 1
  {
    if |later| == 0 then current
    else AddRecentImage(AddAll(current, later[..|later| - 1]), later[|later| - 1])
  }

  /** `toggleTheme()`: 'light' becomes 'dark', anything else becomes 'light'. */
  function ToggleTheme(theme: string): (r: string)
    ensures r == "dark" <==> theme == "light"
    ensures r == "light" || r == "dark"
  {
    if theme == "light" then "dark" else "light"
  }

  /** Toggling twice returns to the start from either known theme, and from anything else lands on 'dark'. */
  lemma ToggleTwice(theme: string)
    ensures theme == "light" || theme == "dark" ==> ToggleTheme(ToggleTheme(theme)) == theme
    ensures theme != "light" && theme != "dark" ==> ToggleTheme(ToggleTheme(theme)) == "dark"
  {
    assert "dark"[0] != "light"[0];
  }

  datatype Notification = Notification(id: int, message: string, kind: string)

  /** `addNotification(message, type)`: one new entry at the end, its type defaulting to 'info'. */
  function AddNotification(list: seq<Notification>, id: int, message: string, kind: Option<string>): (r: seq<Notification>)
    ensures |r| == |list| + 1 && r[..|list|] == list
    ensures r[|list|].id == id && r[|list|].message == message
    ensures r[|list|].kind == (if kind.Some? then kind.value else "info")
  {
    list + [Notification(id, message, if kind.Some? then kind.value else "info")]
  }

  /** The timer's removal: `current.filter(n => n.id !== id)`. */
  function RemoveNotification(list: seq<Notification>, id: int): (r: seq<Notification>)
    ensures |r| <= |list|
    ensures forall n :: n in r ==> n in list && n.id != id
    ensures forall n :: n in list && n.id != id ==> n in r
  {
    if |list| == 0 then []
    else
      var rest := RemoveNotification(list[..|list| - 1], id);
      var n := list[|list| - 1];
      if n.id != id then rest + [n] else rest
  }

  /** Removal from one entry keeps it exactly when its id differs. */
  lemma RemoveSingle(n: Notification, id: int)
    ensures RemoveNotification([n], id) == if n.id != id then [n] else []
  {
    assert [n][..0] == [];
  }

  /**
   * Removal works entry by entry and keeps the order: removing from a
   * concatenation is removing from each part and concatenating the results.
   */
  lemma {:induction false} RemoveConcat(a: seq<Notification>, b: seq<Notification>, id: int)
    ensures RemoveNotification(a + b, id) == RemoveNotification(a, id) + RemoveNotification(b, id)
  {
    if |b| == 0 {
      assert a + b == a;
    } else {
      var init, last := b[..|b| - 1], b[|b| - 1];
      assert (a + b)[..|a + b| - 1] == a + init;
      assert (a + b)[|a + b| - 1] == last;
      RemoveConcat(a, init, id);
      var tail := if last.id != id then [last] else [];
      assert RemoveNotification(b, id) == RemoveNotification(init, id) + tail;
      assert RemoveNotification(a + b, id) == RemoveNotification(a + init, id) + tail;
      assert RemoveNotification(a, id) + (RemoveNotification(init, id) + tail)
          == (RemoveNotification(a, id) + RemoveNotification(init, id)) + tail;
    }
  }

  /** Removal keeps a list in which no entry has the id unchanged. */
  lemma {:induction false} RemoveAbsent(list: seq<Notification>, id: int)
    requires forall i :: 0 <= i < |list| ==> list[i].id != id
    ensures RemoveNotification(list, id) == list
  {
    if |list| > 0 {
      var head, tail := list[0], list[1..];
      assert list == [head] + tail;
      assert forall i :: 0 <= i < |tail| ==> tail[i] == list[i + 1];
      RemoveAbsent(tail, id);
      RemoveSingle(head, id);
      RemoveConcat([head], tail, id);
    }
  }

  /** Removing a notification just added, under a fresh id, gives back the list it was added to. */
  lemma RemoveAfterAdd(list: seq<Notification>, id: int, message: string, kind: Option<string>)
    requires forall i :: 0 <= i < |list| ==> list[i].id != id
    ensures RemoveNotification(AddNotification(list, id, message, kind), id) == list
  {
    var added := AddNotification(list, id, message, kind);
    assert added[..|added| - 1] == list;
    RemoveAbsent(list, id);
  }
}
