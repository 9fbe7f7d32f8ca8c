/** Resolving an activity identifier the way the component does it: a
    first-match search over the loaded activities, in load order. */
module Catalog {
  import opened Types

  /** Some activity in `acts` carries identifier `id`. */
  predicate HasId(acts: seq<Activity>, id: string) {
    exists i :: 0 <= i < |acts| && acts[i].id == id
  }

  /** `acts[i]` is the first activity whose identifier is `id`. */
  ghost predicate FirstWithId(acts: seq<Activity>, id: string, i: int) {
    && 0 <= i < |acts|
    && acts[i].id == id
    && forall j :: 0 <= j < i ==> acts[j].id != id
  }

  /** The first activity with identifier `id`, or None when there is none. */
  function Find(acts: seq<Activity>, id: string): (r: Option<Activity>)
    ensures r.None? <==> !HasId(acts, id)
    ensures r.Some? ==> exists i :: FirstWithId(acts, id, i) && acts[i] == r.value
  {
    if |acts| == 0 then None
    else if acts[0].id == id then
      assert FirstWithId(acts, id, 0);
      Some(acts[0])
    else
      var rest := Find(acts[1..], id);
      if rest.Some? then
        assert exists i :: FirstWithId(acts, id, i) && acts[i] == rest.value by {
          var k :| FirstWithId(acts[1..], id, k) && acts[1..][k] == rest.value;
          assert FirstWithId(acts, id, k + 1);
        }
        rest
      else
        assert forall i :: 1 <= i < |acts| ==> acts[i] == acts[1..][i - 1];
        rest
  }

  /** The identifier resolves to an activity (`selectedActivityForForm` is set). */
  predicate Known(acts: seq<Activity>, id: string) {
    Find(acts, id).Some?
  }

  /** Every resolved activity carries the identifier that was asked for. */
  lemma FindReturnsMatchingId(acts: seq<Activity>, id: string)
    requires Known(acts, id)
    ensures Find(acts, id).value.id == id
    ensures Find(acts, id).value in acts
  {
  }
}
