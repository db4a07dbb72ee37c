/** The client object: its constructor, the two fetch operations and the
    page-by-page handling of a contacts feed. The server is modelled as the
    finite sequence of replies it sends, one per request, in order. */
module Client {
  import opened Wrappers
  import opened Params
  import opened Http
  import opened Entries
  import PathBuilder
  import QueryString
  import Text

  /** What the constructor is given: a bare token string, an options object,
      or nothing (any falsy value). */
  datatype Options = TokenString(token: string) | Object(params: Params) | Nothing

  /** A client instance. `contacts` is the accumulator that lives as long as
      the instance and is never cleared. */
  datatype Client = Client(
    contacts: seq<Contact>,
    consumerKey: Option<string>,
    consumerSecret: Option<string>,
    token: Option<string>,
    refreshToken: Option<string>,
    params: Params)

  /** The options object after the first two normalisations of the constructor. */
  function OptionsObject(opts: Options): Params {
    match opts
    case TokenString(t) => NoParams.(token := Some(t))
    case Object(p) => p
    case Nothing => NoParams
  }

  /** `p.x ? p.x : null`. */
  function TruthyOrNull(o: Option<string>): (r: Option<string>)
    ensures r.Some? <==> Truthy(o)
    ensures r.Some? ==> r == o
  {
    if Truthy(o) then o else None
  }

  /** The constructor: a string stands for `{token}`, a falsy value for `{}`;
      credentials keep only truthy values; `thin` defaults to true and every
      other option is kept as given. */
  function NewClient(opts: Options): (c: Client)
    ensures c.contacts == []
    ensures c.params.(thin := None) == OptionsObject(opts).(thin := None)
    ensures OptionsObject(opts).thin.None? ==> c.params.thin == Some(true)
    ensures OptionsObject(opts).thin.Some? ==> c.params.thin == OptionsObject(opts).thin
    ensures c.token.Some? <==> Truthy(OptionsObject(opts).token)
    ensures c.token.Some? ==> c.token == OptionsObject(opts).token
    ensures opts.TokenString? && opts.token != "" ==> c.token == Some(opts.token)
    ensures c.consumerKey.Some? <==> Truthy(OptionsObject(opts).consumerKey)
    ensures c.consumerKey.Some? ==> c.consumerKey == OptionsObject(opts).consumerKey
    ensures c.consumerSecret.Some? <==> Truthy(OptionsObject(opts).consumerSecret)
    ensures c.consumerSecret.Some? ==> c.consumerSecret == OptionsObject(opts).consumerSecret
    ensures c.refreshToken.Some? <==> Truthy(OptionsObject(opts).refreshToken)
    ensures c.refreshToken.Some? ==> c.refreshToken == OptionsObject(opts).refreshToken
  {
    var p := OptionsObject(opts);
    Client([],
           TruthyOrNull(p.consumerKey),
           TruthyOrNull(p.consumerSecret),
           TruthyOrNull(p.token),
           TruthyOrNull(p.refreshToken),
           if p.thin.None? then p.(thin := Some(true)) else p)
  }

  /** `{type: 'contacts'}`, the first source of both fetch merges. */
  const TypeContacts := NoParams.(feedType := Some("contacts"))

  /** The path of the first request of `getContacts`: the caller's parameters
      over `{type: 'contacts'}`, the instance configuration over both. */
  function ContactsRequestPath(c: Client, params: Params): string {
    PathBuilder.BuildPath(c.params, Extend(Extend(TypeContacts, params), c.params))
  }

  /** `getContact`: without an `id` property it fails at once with
      `MissingId` and sends nothing; otherwise it requests the path built from
      the instance configuration merged under the caller's parameters. */
  function GetContact(c: Client, params: Params): (r: Result<string, Error>)
    ensures r.Failure? <==> params.id.None?
    ensures r.Failure? ==> r.error == MissingId(MissingIdMessage)
  {
    if params.id.None? then Failure(MissingId(MissingIdMessage))
    else Success(PathBuilder.BuildPath(c.params, Extend(Extend(TypeContacts, c.params), params)))
  }

  // ---------------------------------------------------------------------
  // Pagination
  // ---------------------------------------------------------------------

  datatype Link = Link(rel: string, href: string)

  /** The parts of a parsed feed that `receivedContacts` reads. */
  datatype Feed = Feed(entries: seq<RawEntry>, links: seq<Link>)

  /** One reply of the server: a transport failure, or a status with a body
      that parsed (`Some`) or did not (`None`). */
  datatype Reply = TransportFailure | HttpReply(status: int, body: Option<Feed>)

  /** What the `getContacts` callback has received: nothing yet, or one result. */
  datatype Delivery = Awaiting | Delivered(result: Result<seq<Contact>, Error>)

  /** What `_get` hands to `receivedContacts` for one reply. */
  function Outcome(reply: Reply): Result<Feed, Error> {
    match reply
    case TransportFailure => Failure(Transport)
    case HttpReply(status, body) => HandleResponse(status, body)
  }

  predicate HasNext(links: seq<Link>) {
    exists i :: 0 <= i < |links| && links[i].rel == "next"
  }

  /** `receivedContacts` applied to the replies in turn, starting from the
      accumulator `acc`: the new accumulator and what the callback received.
      The accumulator only ever grows, and a non-empty list delivered is the
      whole accumulator. */
  function Run(thin: bool, acc: seq<Contact>, replies: seq<Reply>): (res: (seq<Contact>, Delivery))
    ensures acc <= res.0
    ensures res.1.Delivered? && res.1.result.Success? && |res.1.result.value| > 0 ==> res.1.result.value == res.0
    decreases |replies|
  {
    if |replies| == 0 then (acc, Awaiting)
    else match Outcome(replies[0])
      case Failure(e) => (acc, Delivered(Failure(e)))
      case Success(feed) =>
        if |feed.entries| == 0 then (acc, Delivered(Success([])))
        else
          var acc' := acc + NormalizeAll(thin, feed.entries);
          if HasNext(feed.links) then Run(thin, acc', replies[1..])
          else (acc', Delivered(Success(acc')))
  }

  /** `getContacts` once its first request is sent: handles replies until one
      of them ends the chain, and returns the client with its accumulator
      updated, what the callback received and how many replies were used. */
  method GetContacts(c: Client, replies: seq<Reply>) returns (c': Client, delivery: Delivery, used: nat)
    ensures (c'.contacts, delivery) == Run(IsOn(c.params.thin), c.contacts, replies)
    ensures c' == c.(contacts := c'.contacts)
    ensures used <= |replies|
    ensures delivery.Awaiting? ==> used == |replies|
    ensures delivery.Delivered? ==> used > 0
  {
    var thin := IsOn(c.params.thin);
    var acc := c.contacts;
    var i := 0;
    delivery := Awaiting;
    while i < |replies| && delivery.Awaiting?
      invariant 0 <= i <= |replies|
      decreases |replies| - i
      invariant delivery.Awaiting? ==> Run(thin, c.contacts, replies) == Run(thin, acc, replies[i..])
      invariant delivery.Delivered? ==> Run(thin, c.contacts, replies) == (acc, delivery) && i > 0
    {
      assert replies[i..][1..] == replies[i + 1..];
      match Outcome(replies[i]) {
        case Failure(e) =>
          delivery := Delivered(Failure(e));
        case Success(feed) =>
          if |feed.entries| == 0 {
            delivery := Delivered(Success([]));
          } else {
            acc := acc + NormalizeAll(thin, feed.entries);
            if !HasNext(feed.links) {
              delivery := Delivered(Success(acc));
            }
          }
      }
      i := i + 1;
    }
    c' := c.(contacts := acc);
    used := i;
  }

  /** The entries a successful reply carries; none for a failed one. */
  function PageEntries(reply: Reply): seq<RawEntry> {
    match Outcome(reply)
    case Success(feed) => feed.entries
    case Failure(_) => []
  }

  /** A successful reply with at least one entry. */
  predicate FullPage(reply: Reply) {
    Outcome(reply).Success? && |Outcome(reply).value.entries| > 0
  }

  /** A full page that links to a further one. */
  predicate ContinuedPage(reply: Reply) {
    FullPage(reply) && HasNext(Outcome(reply).value.links)
  }

  /** The normalised entries of the replies, page after page. */
  function Collected(thin: bool, replies: seq<Reply>): seq<Contact> {
    if |replies| == 0 then []
    else NormalizeAll(thin, PageEntries(replies[0])) + Collected(thin, replies[1..])
  }

  /** One page that continues the chain moves its entries into the accumulator. */
  lemma RunStep(thin: bool, acc: seq<Contact>, replies: seq<Reply>)
    requires |replies| > 0 && ContinuedPage(replies[0])
    ensures Run(thin, acc, replies)
         == Run(thin, acc + NormalizeAll(thin, PageEntries(replies[0])), replies[1..])
  {
  }

  /** The first `k` pages are the first page followed by the next `k - 1`. */
  lemma CollectedPrefix(thin: bool, replies: seq<Reply>, k: nat)
    requires 0 < k <= |replies|
    ensures Collected(thin, replies[..k])
         == NormalizeAll(thin, PageEntries(replies[0])) + Collected(thin, replies[1..][..k - 1])
  {
    assert replies[..k][0] == replies[0];
    assert replies[..k][1..] == replies[1..][..k - 1];
  }

  /** Pages that continue the chain just move their entries into the accumulator. */
  lemma {:induction false} RunThroughPages(thin: bool, acc: seq<Contact>, replies: seq<Reply>, k: nat)
    requires k <= |replies|
    requires forall i :: 0 <= i < k ==> ContinuedPage(replies[i])
    ensures Run(thin, acc, replies) == Run(thin, acc + Collected(thin, replies[..k]), replies[k..])
    decreases k
  {
    if k == 0 {
      assert replies[..0] == [];
      assert replies[0..] == replies;
      assert acc + Collected(thin, replies[..0]) == acc;
    } else {
      var page := NormalizeAll(thin, PageEntries(replies[0]));
      RunStep(thin, acc, replies);
      assert forall i :: 0 <= i < k - 1 ==> replies[1..][i] == replies[i + 1];
      RunThroughPages(thin, acc + page, replies[1..], k - 1);
      assert replies[1..][k - 1..] == replies[k..];
      CollectedPrefix(thin, replies, k);
      Text.ConcatAssociative(acc, page, Collected(thin, replies[1..][..k - 1]));
    }
  }

  /** The last page of a chain: its entries are appended and the whole
      accumulator is delivered. */
  lemma RunLastPage(thin: bool, acc: seq<Contact>, reply: Reply)
    requires FullPage(reply) && !HasNext(Outcome(reply).value.links)
    ensures var all := acc + NormalizeAll(thin, PageEntries(reply));
      Run(thin, acc, [reply]) == (all, Delivered(Success(all)))
  {
  }

  lemma CollectedOne(thin: bool, reply: Reply)
    ensures Collected(thin, [reply]) == NormalizeAll(thin, PageEntries(reply))
  {
    assert [reply][1..] == [];
  }

  /** Collecting starts with the first page. */
  lemma CollectedFirst(thin: bool, acc: seq<Contact>, replies: seq<Reply>, page: seq<Contact>)
    requires |replies| > 0
    requires page == NormalizeAll(thin, PageEntries(replies[0]))
    ensures acc + page + Collected(thin, replies[1..]) == acc + Collected(thin, replies)
  {
    assert Collected(thin, replies) == page + Collected(thin, replies[1..]);
    Text.ConcatAssociative(acc, page, Collected(thin, replies[1..]));
  }

  /** A chain of full pages, each linking to the next except the last,
      delivers the prior accumulator followed by every page's normalised
      entries in order, and leaves the accumulator equal to that list. */
  lemma {:induction false} AllPagesDelivered(thin: bool, acc: seq<Contact>, replies: seq<Reply>)
    requires |replies| > 0
    requires forall i :: 0 <= i < |replies| - 1 ==> ContinuedPage(replies[i])
    requires FullPage(replies[|replies| - 1]) && !HasNext(Outcome(replies[|replies| - 1]).value.links)
    ensures var all := acc + Collected(thin, replies);
      Run(thin, acc, replies) == (all, Delivered(Success(all)))
    decreases |replies|
  {
    var page := NormalizeAll(thin, PageEntries(replies[0]));
    if |replies| == 1 {
      assert replies == [replies[0]];
      RunLastPage(thin, acc, replies[0]);
      CollectedOne(thin, replies[0]);
    } else {
      var rest := replies[1..];
      assert ContinuedPage(replies[0]);
      RunStep(thin, acc, replies);
      assert forall i :: 0 <= i < |rest| - 1 ==> rest[i] == replies[i + 1];
      assert rest[|rest| - 1] == replies[|replies| - 1];
      AllPagesDelivered(thin, acc + page, rest);
      CollectedFirst(thin, acc, replies, page);
    }
  }

  /** A page without entries, even after pages already accumulated, delivers
      the empty list and leaves the accumulator as those pages left it. */
  lemma EmptyPageDeliversEmpty(thin: bool, acc: seq<Contact>, replies: seq<Reply>, k: nat)
    requires k < |replies|
    requires forall i :: 0 <= i < k ==> ContinuedPage(replies[i])
    requires Outcome(replies[k]).Success? && |Outcome(replies[k]).value.entries| == 0
    ensures Run(thin, acc, replies) == (acc + Collected(thin, replies[..k]), Delivered(Success([])))
  {
    RunThroughPages(thin, acc, replies, k);
    assert replies[k..][0] == replies[k];
  }

  /** A failed reply ends the chain with its error; the pages before it stay accumulated. */
  lemma FailureDelivered(thin: bool, acc: seq<Contact>, replies: seq<Reply>, k: nat)
    requires k < |replies|
    requires forall i :: 0 <= i < k ==> ContinuedPage(replies[i])
    requires Outcome(replies[k]).Failure?
    ensures Run(thin, acc, replies)
         == (acc + Collected(thin, replies[..k]), Delivered(Failure(Outcome(replies[k]).error)))
  {
    RunThroughPages(thin, acc, replies, k);
    assert replies[k..][0] == replies[k];
  }

  /** Pages of `size` entries each contribute `size` contacts each. */
  lemma {:induction false} CollectedCount(thin: bool, replies: seq<Reply>, size: nat)
    requires forall i :: 0 <= i < |replies| ==> |PageEntries(replies[i])| == size
    ensures |Collected(thin, replies)| == |replies| * size
    decreases |replies|
  {
    if |replies| > 0 {
      CollectedCount(thin, replies[1..], size);
      assert |NormalizeAll(thin, PageEntries(replies[0]))| == size;
      assert |replies| * size == size + (|replies| - 1) * size;
    }
  }

  /** N pages of K entries delivered from an empty accumulator give N*K contacts. */
  lemma PagesTimesSize(thin: bool, replies: seq<Reply>, size: nat)
    requires |replies| > 0
    requires forall i :: 0 <= i < |replies| - 1 ==> ContinuedPage(replies[i])
    requires FullPage(replies[|replies| - 1]) && !HasNext(Outcome(replies[|replies| - 1]).value.links)
    requires forall i :: 0 <= i < |replies| ==> |PageEntries(replies[i])| == size
    ensures Run(thin, [], replies).1.Delivered?
    ensures Run(thin, [], replies).1.result.Success?
    ensures |Run(thin, [], replies).1.result.value| == |replies| * size
  {
    AllPagesDelivered(thin, [], replies);
    CollectedCount(thin, replies, size);
  }

  /** The accumulator is shared across calls: a second complete fetch on the
      same client delivers the first fetch's contacts followed by its own. */
  lemma SecondFetchRepeatsFirst(thin: bool, acc: seq<Contact>, first: seq<Reply>, second: seq<Reply>)
    requires |first| > 0 && |second| > 0
    requires forall i :: 0 <= i < |first| - 1 ==> ContinuedPage(first[i])
    requires FullPage(first[|first| - 1]) && !HasNext(Outcome(first[|first| - 1]).value.links)
    requires forall i :: 0 <= i < |second| - 1 ==> ContinuedPage(second[i])
    requires FullPage(second[|second| - 1]) && !HasNext(Outcome(second[|second| - 1]).value.links)
    ensures Run(thin, Run(thin, acc, first).0, second).1
         == Delivered(Success(acc + Collected(thin, first) + Collected(thin, second)))
  {
    AllPagesDelivered(thin, acc, first);
    AllPagesDelivered(thin, acc + Collected(thin, first), second);
  }

  // ---------------------------------------------------------------------
  // Token refresh
  // ---------------------------------------------------------------------

  /** The form body `refreshAccessToken` posts: `refresh_token`, `client_id`,
      `client_secret` and `grant_type`, in that order; a missing consumer key
      or secret (`null`) is written as an empty value. */
  function RefreshRequestBody(c: Client, refreshToken: string): string {
    QueryString.Stringify([("refresh_token", refreshToken),
                           ("client_id", c.consumerKey.GetOr("")),
                           ("client_secret", c.consumerSecret.GetOr("")),
                           ("grant_type", "refresh_token")])
  }

  /** The form body carries exactly the four fields, in order, whatever
      characters they hold, and is ASCII so that its character count is the
      `Content-Length` in bytes. */
  lemma RefreshBodyFields(c: Client, refreshToken: string)
    ensures QueryString.Parse(RefreshRequestBody(c, refreshToken))
         == Some([("refresh_token", refreshToken),
                  ("client_id", c.consumerKey.GetOr("")),
                  ("client_secret", c.consumerSecret.GetOr("")),
                  ("grant_type", "refresh_token")])
    ensures forall i :: 0 <= i < |RefreshRequestBody(c, refreshToken)| ==>
              RefreshRequestBody(c, refreshToken)[i] as int < 128
  {
    var fields := [("refresh_token", refreshToken),
                   ("client_id", c.consumerKey.GetOr("")),
                   ("client_secret", c.consumerSecret.GetOr("")),
                   ("grant_type", "refresh_token")];
    QueryString.ParseStringify(fields);
    QueryString.StringifyIsAscii(fields);
  }

  /** The parsed token endpoint reply: `access_token` may be missing. */
  datatype TokenReply = TokenReply(accessToken: Option<string>)

  /** What the `refreshAccessToken` callback receives: the status decides
      first, then the body must parse, then its `access_token` (possibly
      undefined) is handed over. */
  function RefreshOutcome(status: int, body: Option<TokenReply>): (r: Result<Option<string>, Error>)
    ensures r.Success? <==> IsSuccessStatus(status) && body.Some?
    ensures r.Success? ==> r.value == body.value.accessToken
    ensures !IsSuccessStatus(status) ==> r == Failure(BadStatus(status))
  {
    match HandleResponse(status, body)
    case Success(t) => Success(t.accessToken)
    case Failure(e) => Failure(e)
  }

  // ---------------------------------------------------------------------
  // Requests
  // ---------------------------------------------------------------------

  /** A client made from a token string alone fetches the default thin feed
      when `getContacts` is called without parameters that shape the path.
      A caller's `thin` has no effect: the instance's `thin: true` wins. */
  lemma TokenClientRequestsDefaultFeed(token: string, params: Params)
    requires PathBuilder.NoPathOverrides(params)
    ensures ContactsRequestPath(NewClient(TokenString(token)), params)
         == "/m8/feeds/contacts/default/thin?alt=json&max-results=10000"
  {
    var c := NewClient(TokenString(token));
    var inst := c.params;
    assert PathBuilder.NoPathOverrides(inst) && IsOn(inst.thin);
    var merged := Extend(Extend(TypeContacts, params), inst);
    assert PathBuilder.PlanOf(Extend(merged, inst)) == PathBuilder.PlanOf(Extend(params, inst));
    PathBuilder.SamePlanSamePath(inst, merged, params);
    assert IsOn(Extend(params, inst).thin);
    PathBuilder.DefaultPath(inst, params);
    PathBuilder.ThinFeedText("/m8/feeds/contacts/default/", "thin", "?alt=json&max-results=10000");
  }

  /** `getContact` with a truthy, plain `id` on a client whose configuration
      has no `id` or `path` requests `.../{id}?...` and leaves `max-results` out. */
  lemma GetContactById(c: Client, params: Params)
    requires c.params.id.None? && c.params.path.None?
    requires Truthy(params.id) && !Truthy(params.path)
    ensures GetContact(c, params).Success?
    ensures exists plan :: GetContact(c, params).value == PathBuilder.Render(plan)
                        && plan.id == params.id
                        && !PathBuilder.HasKey(plan.query, "max-results")
  {
    var merged := Extend(Extend(TypeContacts, c.params), params);
    var m := Extend(merged, c.params);
    assert m.id == params.id;
    PathBuilder.QueryShape(m);
    var plan := PathBuilder.PlanOf(m);
    assert GetContact(c, params).value == PathBuilder.Render(plan);
  }

  /** An `id` property that is present but empty passes the guard of
      `getContact`, yet adds no segment and keeps `max-results`. */
  lemma GetContactEmptyId(c: Client, params: Params)
    requires c.params.id.None? && c.params.path.None?
    requires params.id == Some("") && !Truthy(params.path)
    ensures GetContact(c, params).Success?
    ensures exists plan :: GetContact(c, params).value == PathBuilder.Render(plan)
                        && plan.id.None?
                        && PathBuilder.HasKey(plan.query, "max-results")
  {
    var merged := Extend(Extend(TypeContacts, c.params), params);
    var m := Extend(merged, c.params);
    assert m.id == Some("");
    PathBuilder.QueryShape(m);
    var plan := PathBuilder.PlanOf(m);
    assert GetContact(c, params).value == PathBuilder.Render(plan);
  }
}
