/** `UserReferences`: the populate options used whenever a document refers to
    users, which select only a user's name and avatar. `getPopulate` repeats the
    nesting code of `getSchemaPopulate` with these select fields fixed. */
module UserReferences {
  import opened Common
  import Strings
  import opened SchemaPopulate

  /** `UserReferences.selectFields`. */
  const SelectFields: seq<string> := ["first_name", "last_name", "avatar"]

  /** The nesting closure inside `getPopulate`, whose leaf always selects `SelectFields`. */
  function NestUser(segments: seq<string>): (p: Populate)
    requires |segments| >= 1
    ensures Depth(p) == |segments|
  {
    if |segments| == 1 then Leaf(segments[0], Some(SelectFields))
    else Node(segments[0], NestUser(segments[1..]))
  }

  /** `UserReferences.getPopulate(paths)`. */
  function GetPopulate(paths: seq<string>): (r: Option<seq<Populate>>)
    ensures r.None? <==> |paths| == 0
    ensures r.Some? ==> |r.value| == |paths|
  {
    if |paths| == 0 then None
    else Some(seq(|paths|, i requires 0 <= i < |paths| => NestUser(Strings.Split(paths[i], '.'))))
  }

  /** The copy inside `getPopulate` builds the same chain as the general builder. */
  lemma {:induction false} NestUserIsNest(segments: seq<string>)
    requires |segments| >= 1
    ensures NestUser(segments) == Nest(segments, Some(SelectFields))
  {
    if |segments| > 1 {
      NestUserIsNest(segments[1..]);
    }
  }

  /** `getPopulate(paths)` equals `getSchemaPopulate(paths, selectFields)`, so
      every property of the general builder carries over: one chain per path,
      in order, depth equal to the segment count, leaf selecting the name and
      avatar fields. */
  lemma GetPopulateIsSchemaPopulate(paths: seq<string>)
    ensures GetPopulate(paths) == GetSchemaPopulate(paths, Some(SelectFields))
  {
    if |paths| > 0 {
      var a := GetPopulate(paths).value;
      var b := GetSchemaPopulate(paths, Some(SelectFields)).value;
      forall i | 0 <= i < |paths| ensures a[i] == b[i] {
        NestUserIsNest(Strings.Split(paths[i], '.'));
      }
      assert a == b;
    }
  }

  /** Each chain of `getPopulate` spells out its path and selects the name and
      avatar fields on its leaf. */
  lemma UserPopulateRoundTrip(paths: seq<string>, i: nat)
    requires i < |paths|
    ensures GetPopulate(paths).Some?
    ensures var p := GetPopulate(paths).value[i];
            && Depth(p) == multiset(paths[i])['.'] + 1
            && Strings.Join(Segments(p), '.') == paths[i]
            && InnerSelect(p) == Some(["first_name", "last_name", "avatar"])
  {
    GetPopulateIsSchemaPopulate(paths);
    SchemaPopulateRoundTrip(paths, Some(SelectFields), i);
  }
}
