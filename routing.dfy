/** Express's route matching, as far as the routers' single-segment GET
    routes need it: routes are tried in the order they are registered and
    the first whose pattern matches the path handles the request. */
module Routing {
  import opened Common

  /** The pattern of a single-segment route: "/", a literal segment, or ":param". */
  datatype Pattern = Root | Literal(name: string) | Param

  /** A request path below the router: None for "/", Some(s) for "/s". */
  predicate Matches(p: Pattern, path: Option<string>) {
    match p
    case Root => path.None?
    case Literal(name) => path == Some(name)
    case Param => path.Some? && path.value != ""
  }

  /** The position of the first registered route whose pattern matches. */
  function FirstMatch<H>(routes: seq<(Pattern, H)>, path: Option<string>): (r: Option<nat>)
    ensures r.None? <==> forall i :: 0 <= i < |routes| ==> !Matches(routes[i].0, path)
    ensures r.Some? ==> r.value < |routes| && Matches(routes[r.value].0, path)
    ensures r.Some? ==> forall j :: 0 <= j < r.value ==> !Matches(routes[j].0, path)
  {
    if routes == [] then None
    else if Matches(routes[0].0, path) then Some(0)
    else
      var r := FirstMatch(routes[1..], path);
      assert forall j :: 1 <= j < |routes| ==> routes[j] == routes[1..][j - 1];
      if r.Some? then Some(r.value + 1) else None
  }

  /** The handler Express runs for a path, if any route matches. */
  function Dispatch<H>(routes: seq<(Pattern, H)>, path: Option<string>): (r: Option<H>)
    ensures r.None? <==> forall i :: 0 <= i < |routes| ==> !Matches(routes[i].0, path)
  {
    var k := FirstMatch(routes, path);
    if k.Some? then Some(routes[k.value].1) else None
  }

  /** A literal route registered after a parameter route never handles a
      request: every path it matches is taken by the parameter first. */
  lemma ShadowedLiteral<H>(routes: seq<(Pattern, H)>, j: nat, i: nat, path: Option<string>)
    requires j < i < |routes|
    requires routes[j].0 == Param && routes[i].0.Literal? && routes[i].0.name != ""
    ensures FirstMatch(routes, path) != Some(i)
  {
  }

  /** A route that matches a path no earlier route matches handles it. */
  lemma FirstMatching<H>(routes: seq<(Pattern, H)>, i: nat, path: Option<string>)
    requires i < |routes| && Matches(routes[i].0, path)
    requires forall j :: 0 <= j < i ==> !Matches(routes[j].0, path)
    ensures FirstMatch(routes, path) == Some(i)
  {
  }

  /** Swapping two adjacent routes that never match the same path changes
      no dispatch. */
  lemma SwapAdjacent<H>(a: seq<(Pattern, H)>, b: seq<(Pattern, H)>, i: nat, path: Option<string>)
    requires |a| == |b| && i + 1 < |a|
    requires b[i] == a[i + 1] && b[i + 1] == a[i]
    requires forall k :: 0 <= k < |a| && k != i && k != i + 1 ==> b[k] == a[k]
    requires !(Matches(a[i].0, path) && Matches(a[i + 1].0, path))
    ensures Dispatch(b, path) == Dispatch(a, path)
  {
    var m := FirstMatch(a, path);
    if m.None? {
      forall k | 0 <= k < |b|
        ensures !Matches(b[k].0, path)
      {
        if k == i {
          assert b[k] == a[i + 1];
        } else if k == i + 1 {
          assert b[k] == a[i];
        }
      }
    } else if m.value < i {
      FirstMatching(b, m.value, path);
    } else if m.value == i {
      FirstMatching(b, i + 1, path);
    } else if m.value == i + 1 {
      FirstMatching(b, i, path);
    } else {
      forall k | 0 <= k < m.value
        ensures !Matches(b[k].0, path)
      {
        if k == i {
          assert b[k] == a[i + 1];
        } else if k == i + 1 {
          assert b[k] == a[i];
        }
      }
      FirstMatching(b, m.value, path);
    }
  }
}
