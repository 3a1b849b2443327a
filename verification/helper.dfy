/** The nested populate options built by `getSchemaPopulate`: a dotted path
    such as `"followers.user"` becomes one object per segment, each outer object
    naming the next one under `populate` and only the innermost one carrying
    `select`. */
module SchemaPopulate {
  import opened Common
  import Strings

  /** One populate object. `Leaf` is `{ path, select }`, whose `select` is
      `undefined` (`None`) when no select fields were given; `Node` is
      `{ path, populate }`. */
  datatype Populate =
    | Leaf(path: string, select: Option<seq<string>>)
    | Node(path: string, populate: Populate)

  /** Number of nested objects in the chain. */
  function Depth(p: Populate): nat {
    match p
    case Leaf(_, _) => 1
    case Node(_, inner) => 1 + Depth(inner)
  }

  /** The `path` fields, outermost first. */
  function Segments(p: Populate): (s: seq<string>)
    ensures |s| == Depth(p)
  {
    match p
    case Leaf(path, _) => [path]
    case Node(path, inner) => [path] + Segments(inner)
  }

  /** The `select` of the innermost object. */
  function InnerSelect(p: Populate): Option<seq<string>> {
    match p
    case Leaf(_, select) => select
    case Node(_, inner) => InnerSelect(inner)
  }

  /** `createNestedPopulate`: one object per segment, in order, with `select`
      placed on the last one. */
  function Nest(segments: seq<string>, select: Option<seq<string>>): (p: Populate)
    requires |segments| >= 1
    ensures Segments(p) == segments
    ensures InnerSelect(p) == select
  {
    if |segments| == 1 then Leaf(segments[0], select)
    else Node(segments[0], Nest(segments[1..], select))
  }

  /** `getSchemaPopulate(paths, selectFields)`: `undefined` for no paths,
      otherwise one chain per path, in order, each chain spelling out its path's
      dot-separated segments. */
  function GetSchemaPopulate(paths: seq<string>, select: Option<seq<string>>): (r: Option<seq<Populate>>)
    ensures r.None? <==> |paths| == 0
    ensures r.Some? ==> |r.value| == |paths|
    ensures r.Some? ==> forall i :: 0 <= i < |paths| ==>
              Segments(r.value[i]) == Strings.Split(paths[i], '.') && InnerSelect(r.value[i]) == select
  {
    if |paths| == 0 then None
    else Some(seq(|paths|, i requires 0 <= i < |paths| => Nest(Strings.Split(paths[i], '.'), select)))
  }

  /** Each chain has as many objects as its path has dot-separated segments,
      joining its `path` fields with "." gives the path back, and the leaf
      carries exactly the given select fields. */
  lemma SchemaPopulateRoundTrip(paths: seq<string>, select: Option<seq<string>>, i: nat)
    requires i < |paths|
    ensures GetSchemaPopulate(paths, select).Some?
    ensures var p := GetSchemaPopulate(paths, select).value[i];
            && Depth(p) == multiset(paths[i])['.'] + 1
            && Strings.Join(Segments(p), '.') == paths[i]
            && InnerSelect(p) == select
  {
    Strings.JoinSplit(paths[i], '.');
  }
}
