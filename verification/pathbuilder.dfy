/** The request-path builder (`_buildPath`): fills in defaults, composes
    `/m8/feeds/{type}/{email}/{projection}[/{id}]?{query}` and writes the query
    keys in the fixed order `alt`, `max-results`, `updated-min`, `q`. */
module PathBuilder {
  import opened Wrappers
  import opened Params
  import QueryString
  import Text

  const FeedsPrefix := "/m8/feeds/"
  const DefaultType := "contacts"
  const DefaultAlt := "json"
  const DefaultEmail := "default"
  const DefaultMaxResults := "10000"

  /** What a built path is made of once defaults are filled in. */
  datatype Plan = Plan(
    feedType: string,
    email: string,
    projection: string,
    id: Option<string>,
    query: seq<(string, string)>)

  /** The projection segment: an explicit `projection`, else `thin`/`full` after the flag. */
  function ProjectionOf(p: Params): string {
    OrElse(p.projection, if IsOn(p.thin) then "thin" else "full")
  }

  /** The query object of `_buildPath`, in insertion order. */
  function QueryOf(p: Params): seq<(string, string)> {
    [("alt", OrElse(p.alt, DefaultAlt))]
    + (if !Truthy(p.id) then [("max-results", OrElse(p.maxResults, DefaultMaxResults))] else [])
    + (if Truthy(p.updatedMin) then [("updated-min", p.updatedMin.value)] else [])
    + (if Truthy(p.q) || Truthy(p.query) then [("q", if Truthy(p.q) then p.q.value else p.query.value)] else [])
  }

  /** The pieces of the path for already merged parameters `p`. */
  function PlanOf(p: Params): Plan {
    Plan(OrElse(p.feedType, DefaultType),
         OrElse(p.email, DefaultEmail),
         ProjectionOf(p),
         if Truthy(p.id) then Some(p.id.value) else None,
         QueryOf(p))
  }

  /** The string the pieces are concatenated into. */
  function Render(plan: Plan): string {
    FeedsPrefix + plan.feedType + "/" + plan.email + "/" + plan.projection
    + (if plan.id.Some? then "/" + plan.id.value else "")
    + "?" + QueryString.Stringify(plan.query)
  }

  /** `_buildPath(params)` on a client whose configuration is `inst`: a truthy
      caller `path` is returned as is; otherwise the instance configuration is
      merged over the caller's parameters and the path is composed. */
  function BuildPath(inst: Params, params: Params): string {
    if Truthy(params.path) then params.path.value
    else Render(PlanOf(Extend(params, inst)))
  }

  // ---------------------------------------------------------------------
  // Query shape
  // ---------------------------------------------------------------------

  /** Position of a key in the insertion order of the query object. */
  function KeyRank(k: string): nat {
    if k == "alt" then 0
    else if k == "max-results" then 1
    else if k == "updated-min" then 2
    else if k == "q" then 3
    else 4
  }

  predicate HasKey(query: seq<(string, string)>, k: string) {
    exists i :: 0 <= i < |query| && query[i].0 == k
  }

  /** The value of the first pair with key `k`. */
  function Lookup(query: seq<(string, string)>, k: string): (r: Option<string>)
    ensures r.Some? <==> HasKey(query, k)
    ensures r.Some? ==> exists i :: 0 <= i < |query| && query[i] == (k, r.value)
  {
    if |query| == 0 then None
    else if query[0].0 == k then Some(query[0].1)
    else
      var r := Lookup(query[1..], k);
      assert forall i :: 1 <= i < |query| ==> query[i] == query[1..][i - 1];
      r
  }

  /** `alt` always comes first; the keys are among the four `_buildPath`
      writes, strictly in their insertion order; `max-results` is there exactly
      when there is no truthy `id`; `updated-min` exactly when it is truthy; `q`
      exactly when `q` or `query` is truthy, and then `q` takes precedence. */
  lemma QueryShape(p: Params)
    ensures var query := QueryOf(p);
      && |query| >= 1
      && query[0] == ("alt", OrElse(p.alt, DefaultAlt))
      && (forall i :: 0 <= i < |query| ==> KeyRank(query[i].0) < 4)
      && (forall i, j :: 0 <= i < j < |query| ==> KeyRank(query[i].0) < KeyRank(query[j].0))
      && (HasKey(query, "max-results") <==> !Truthy(p.id))
      && (!Truthy(p.id) ==> Lookup(query, "max-results") == Some(OrElse(p.maxResults, DefaultMaxResults)))
      && (HasKey(query, "updated-min") <==> Truthy(p.updatedMin))
      && (Truthy(p.updatedMin) ==> Lookup(query, "updated-min") == p.updatedMin)
      && (HasKey(query, "q") <==> Truthy(p.q) || Truthy(p.query))
      && (Truthy(p.q) ==> Lookup(query, "q") == p.q)
      && (!Truthy(p.q) && Truthy(p.query) ==> Lookup(query, "q") == p.query)
  {
    QueryOrder(p);
    QueryContents(p);
  }

  lemma QueryOrder(p: Params)
    ensures var query := QueryOf(p);
      && |query| >= 1
      && query[0] == ("alt", OrElse(p.alt, DefaultAlt))
      && (forall i :: 0 <= i < |query| ==> KeyRank(query[i].0) < 4)
      && (forall i, j :: 0 <= i < j < |query| ==> KeyRank(query[i].0) < KeyRank(query[j].0))
  {
    var query := QueryOf(p);
    var m := if !Truthy(p.id) then 1 else 0;
    var u := if Truthy(p.updatedMin) then 1 else 0;
    var n := if Truthy(p.q) || Truthy(p.query) then 1 else 0;
    assert |query| == 1 + m + u + n;
    assert forall i :: 0 <= i < |query| ==>
      KeyRank(query[i].0) == (if i == 0 then 0 else if m == 1 && i == 1 then 1 else if u == 1 && i == 1 + m then 2 else 3);
  }

  lemma QueryContents(p: Params)
    ensures var query := QueryOf(p);
      && (HasKey(query, "max-results") <==> !Truthy(p.id))
      && (!Truthy(p.id) ==> Lookup(query, "max-results") == Some(OrElse(p.maxResults, DefaultMaxResults)))
      && (HasKey(query, "updated-min") <==> Truthy(p.updatedMin))
      && (Truthy(p.updatedMin) ==> Lookup(query, "updated-min") == p.updatedMin)
      && (HasKey(query, "q") <==> Truthy(p.q) || Truthy(p.query))
      && (Truthy(p.q) ==> Lookup(query, "q") == p.q)
      && (!Truthy(p.q) && Truthy(p.query) ==> Lookup(query, "q") == p.query)
  {
    var query := QueryOf(p);
    var m := if !Truthy(p.id) then 1 else 0;
    var u := if Truthy(p.updatedMin) then 1 else 0;
    var n := if Truthy(p.q) || Truthy(p.query) then 1 else 0;
    assert |query| == 1 + m + u + n;
    assert m == 1 ==> query[1] == ("max-results", OrElse(p.maxResults, DefaultMaxResults));
    assert u == 1 ==> query[1 + m] == ("updated-min", p.updatedMin.value);
    assert n == 1 ==> query[1 + m + u].0 == "q";
    QueryOrder(p);
  }

  // ---------------------------------------------------------------------
  // Properties of the built path
  // ---------------------------------------------------------------------

  /** A truthy caller `path` is returned verbatim: no other caller field and
      nothing in the instance configuration has any effect. */
  lemma BuildPathVerbatim(inst: Params, params: Params, other: Params)
    requires Truthy(params.path)
    ensures BuildPath(inst, params) == params.path.value
    ensures BuildPath(other, Extend(other, NoParams.(path := params.path))) == params.path.value
  {
  }

  /** The configuration the constructor leaves when given only a token or no
      option that shapes the path. */
  predicate NoPathOverrides(p: Params) {
    && p.path.None? && p.feedType.None? && p.alt.None? && p.projection.None?
    && p.email.None? && p.maxResults.None? && p.id.None? && p.updatedMin.None?
    && p.q.None? && p.query.None?
  }

  /** Without overrides the path is the default contacts feed of the
      authenticated user, thin or full after the merged flag, asking for JSON
      and at most 10000 results. */
  lemma DefaultPath(inst: Params, params: Params)
    requires NoPathOverrides(inst) && NoPathOverrides(params)
    ensures BuildPath(inst, params)
         == "/m8/feeds/contacts/default/"
            + (if IsOn(Extend(params, inst).thin) then "thin" else "full")
            + "?alt=json&max-results=10000"
  {
    var m := Extend(params, inst);
    assert NoPathOverrides(m);
    DefaultQuery(m);
    var plan := PlanOf(m);
    assert plan.feedType == "contacts" && plan.email == "default" && plan.id.None?;
    DefaultPathText(plan.projection, QueryString.Stringify(plan.query));
  }

  /** Without query overrides the query string is `alt=json&max-results=10000`. */
  lemma DefaultQuery(p: Params)
    requires NoPathOverrides(p)
    ensures QueryString.Stringify(QueryOf(p)) == "alt=json&max-results=10000"
  {
    assert QueryOf(p) == [("alt", "json"), ("max-results", "10000")];
    QueryString.EncodeUnreservedPair("alt", "json");
    QueryString.EncodeUnreservedPair("max-results", "10000");
    QueryString.StringifyTwo(("alt", "json"), ("max-results", "10000"));
    JoinDefaultPieces(QueryString.EncodePair(("alt", "json")), QueryString.EncodePair(("max-results", "10000")));
  }

  // The lemmas below state the string-literal concatenations behind the
  // default path. Each is proved on its own, over variables bound to the
  // literals: inside a larger proof the solver would compare the literals
  // character by character among many unrelated facts.

  lemma DefaultPathText(projection: string, qs: string)
    requires qs == "alt=json&max-results=10000"
    ensures FeedsPrefix + "contacts" + "/" + "default" + "/" + projection + "" + "?" + qs
         == "/m8/feeds/contacts/default/" + projection + "?alt=json&max-results=10000"
  {
    var head := FeedsPrefix + "contacts" + "/" + "default" + "/";
    DefaultHead(head);
    assert head + projection + "" == head + projection;
    Text.ConcatAssociative(head + projection, "?", qs);
    DefaultQueryText("?", qs);
  }

  lemma DefaultHead(head: string)
    requires head == FeedsPrefix + "contacts" + "/" + "default" + "/"
    ensures head == "/m8/feeds/contacts/default/"
  {
  }

  lemma DefaultQueryText(mark: string, qs: string)
    requires mark == "?" && qs == "alt=json&max-results=10000"
    ensures mark + qs == "?alt=json&max-results=10000"
  {
  }

  lemma JoinDefaultPieces(a: string, b: string)
    requires a == "alt" + "=" + "json"
    requires b == "max-results" + "=" + "10000"
    ensures a + "&" + b == "alt=json&max-results=10000"
  {
  }

  lemma ThinFeedText(head: string, projection: string, query: string)
    requires head == "/m8/feeds/contacts/default/"
    requires projection == "thin"
    requires query == "?alt=json&max-results=10000"
    ensures head + projection + query == "/m8/feeds/contacts/default/thin?alt=json&max-results=10000"
  {
  }

  /** A truthy `projection` beats the thin flag; otherwise the flag decides. */
  lemma ProjectionChoice(p: Params)
    ensures Truthy(p.projection) ==> PlanOf(p).projection == p.projection.value
    ensures !Truthy(p.projection) && IsOn(p.thin) ==> PlanOf(p).projection == "thin"
    ensures !Truthy(p.projection) && !IsOn(p.thin) ==> PlanOf(p).projection == "full"
  {
  }

  /** A truthy `id` becomes the last path segment and suppresses `max-results`;
      a falsy one adds no segment and leaves `max-results` in the query. */
  lemma IdSegment(inst: Params, params: Params)
    requires !Truthy(params.path)
    ensures var m := Extend(params, inst); var plan := PlanOf(m);
      && (plan.id.Some? <==> Truthy(m.id))
      && (Truthy(m.id) ==> plan.id == m.id && !HasKey(plan.query, "max-results"))
      && (!Truthy(m.id) ==> HasKey(plan.query, "max-results"))
      && BuildPath(inst, params)
         == FeedsPrefix + plan.feedType + "/" + plan.email + "/" + plan.projection
            + (if Truthy(m.id) then "/" + m.id.value else "")
            + "?" + QueryString.Stringify(plan.query)
  {
    QueryShape(Extend(params, inst));
  }

  /** Parameters that fill in to the same pieces build the same path. */
  lemma SamePlanSamePath(inst: Params, a: Params, b: Params)
    requires !Truthy(a.path) && !Truthy(b.path)
    requires PlanOf(Extend(a, inst)) == PlanOf(Extend(b, inst))
    ensures BuildPath(inst, a) == BuildPath(inst, b)
  {
  }

  /** Every property the path depends on. */
  predicate OwnsPathFields(p: Params) {
    && p.feedType.Some? && p.alt.Some? && p.projection.Some? && p.email.Some?
    && p.maxResults.Some? && p.id.Some? && p.updatedMin.Some? && p.q.Some?
    && p.query.Some? && p.thin.Some?
  }

  /** Instance configuration wins over caller parameters: once the instance
      owns every property the path depends on, the caller can change the path
      only through a truthy `path`. */
  lemma InstanceConfigWins(inst: Params, params: Params)
    requires OwnsPathFields(inst)
    requires !Truthy(params.path)
    ensures BuildPath(inst, params) == BuildPath(inst, NoParams)
  {
    assert PlanOf(Extend(params, inst)) == PlanOf(Extend(NoParams, inst));
  }

  // ---------------------------------------------------------------------
  // Reading a built path back
  // ---------------------------------------------------------------------

  /** A path segment the request path can carry unambiguously. */
  predicate Segment(s: string) {
    '/' !in s && '?' !in s
  }

  predicate WellFormed(plan: Plan) {
    && Segment(plan.feedType) && Segment(plan.email) && Segment(plan.projection)
    && (plan.id.Some? ==> Segment(plan.id.value))
    && |plan.query| > 0
  }

  /** Reference reader of a request path: the segments after `/m8/feeds/`,
      then the decoded query. */
  function ParsePath(path: string): Option<Plan> {
    if |path| < |FeedsPrefix| || path[..|FeedsPrefix|] != FeedsPrefix then None
    else ParseAfterPrefix(path[|FeedsPrefix|..])
  }

  /** The segments and the query of what follows `/m8/feeds/`. */
  function ParseAfterPrefix(rest: string): Option<Plan> {
    var halves := Text.Split(rest, '?');
    if |halves| != 2 then None
    else
      var segs := Text.Split(halves[0], '/');
      match QueryString.Parse(halves[1])
      case None => None
      case Some(query) =>
        if |segs| == 3 then Some(Plan(segs[0], segs[1], segs[2], None, query))
        else if |segs| == 4 then Some(Plan(segs[0], segs[1], segs[2], Some(segs[3]), query))
        else None
  }

  function Segments(plan: Plan): seq<string> {
    [plan.feedType, plan.email, plan.projection] + (if plan.id.Some? then [plan.id.value] else [])
  }

  /** No character of a stringified query is a `?`. */
  lemma StringifyHasNoQuestionMark(query: seq<(string, string)>)
    ensures '?' !in QueryString.Stringify(query)
  {
    var pieces := QueryString.EncodePairs(query);
    forall i | 0 <= i < |pieces|
      ensures '?' !in pieces[i]
    {
      QueryString.EscapedHasNoSeparators(query[i].0);
      QueryString.EscapedHasNoSeparators(query[i].1);
    }
    Text.JoinAvoids(pieces, '&', '?');
  }

  /** A rendered path is the prefix, then the segments joined by `/`, then
      `?` and the query string. */
  lemma RenderAsJoin(plan: Plan)
    ensures Render(plan)
         == FeedsPrefix + Text.Join([Text.Join(Segments(plan), '/'), QueryString.Stringify(plan.query)], '?')
  {
    var qs := QueryString.Stringify(plan.query);
    var tail := if plan.id.Some? then "/" + plan.id.value else "";
    var left := Text.Join(Segments(plan), '/');
    var a, b, c := plan.feedType, plan.email, plan.projection;
    if plan.id.Some? {
      assert Segments(plan) == [a, b, c, plan.id.value];
      JoinFour(a, b, c, plan.id.value, '/');
      Text.ConcatAssociative(a + "/" + b + "/" + c, "/", plan.id.value);
    } else {
      assert Segments(plan) == [a, b, c];
      JoinThree(a, b, c, '/');
    }
    assert left == a + "/" + b + "/" + c + tail;
    JoinTwo(left, qs, '?');
    RenderShape(FeedsPrefix, a, b, c, tail, qs);
  }

  /** The concatenation of `Render`, regrouped around its `?`. */
  lemma RenderShape(prefix: string, a: string, b: string, c: string, tail: string, qs: string)
    ensures prefix + a + "/" + b + "/" + c + tail + "?" + qs
         == prefix + ((a + "/" + b + "/" + c + tail) + "?" + qs)
  {
  }

  lemma JoinTwo(a: string, b: string, sep: char)
    ensures Text.Join([a, b], sep) == a + [sep] + b
  {
    assert [a, b][1..] == [b];
  }

  lemma JoinThree(a: string, b: string, c: string, sep: char)
    ensures Text.Join([a, b, c], sep) == a + [sep] + b + [sep] + c
  {
    assert [a, b, c][1..] == [b, c];
    JoinTwo(b, c, sep);
  }

  lemma JoinFour(a: string, b: string, c: string, d: string, sep: char)
    ensures Text.Join([a, b, c, d], sep) == a + [sep] + b + [sep] + c + [sep] + d
  {
    assert [a, b, c, d][1..] == [b, c, d];
    JoinThree(b, c, d, sep);
  }

  /** `ParsePath` on a path whose halves and segments split as intended. */
  lemma ParseJoined(plan: Plan, left: string, qs: string)
    requires Text.Split(Text.Join([left, qs], '?'), '?') == [left, qs]
    requires Text.Split(left, '/') == Segments(plan)
    requires QueryString.Parse(qs) == Some(plan.query)
    ensures ParsePath(FeedsPrefix + Text.Join([left, qs], '?')) == Some(plan)
  {
    var rest := Text.Join([left, qs], '?');
    var segs := Segments(plan);
    assert |segs| == 3 || |segs| == 4;
    assert ParseAfterPrefix(rest) == Some(plan);
    StripPrefix(FeedsPrefix, rest);
  }

  /** `ParsePath` strips exactly the feeds prefix. */
  lemma StripPrefix(prefix: string, rest: string)
    requires prefix == FeedsPrefix
    ensures ParsePath(prefix + rest) == ParseAfterPrefix(rest)
  {
    var path := prefix + rest;
    assert path[..|prefix|] == prefix;
    assert path[|prefix|..] == rest;
  }

  /** Rendering loses nothing: every well-formed plan is read back from its path. */
  lemma ParseRender(plan: Plan)
    requires WellFormed(plan)
    ensures ParsePath(Render(plan)) == Some(plan)
  {
    var segs := Segments(plan);
    var left := Text.Join(segs, '/');
    var qs := QueryString.Stringify(plan.query);
    RenderAsJoin(plan);
    Text.JoinAvoids(segs, '/', '?');
    StringifyHasNoQuestionMark(plan.query);
    Text.SplitJoin([left, qs], '?');
    Text.SplitJoin(segs, '/');
    QueryString.ParseStringify(plan.query);
    ParseJoined(plan, left, qs);
  }

  /** The built path can be read back into exactly the defaults-filled
      parameters it was made from, as long as the raw segments hold no `/` or `?`. */
  lemma BuildPathRoundTrip(inst: Params, params: Params)
    requires !Truthy(params.path)
    requires var plan := PlanOf(Extend(params, inst));
      Segment(plan.feedType) && Segment(plan.email) && Segment(plan.projection)
      && (plan.id.Some? ==> Segment(plan.id.value))
    ensures ParsePath(BuildPath(inst, params)) == Some(PlanOf(Extend(params, inst)))
  {
    ParseRender(PlanOf(Extend(params, inst)));
  }
}
