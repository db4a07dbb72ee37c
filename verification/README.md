# Google Contacts client — a verified model of its pure core

The library is a thin client for the Google Contacts (GData v3) API: one
`GoogleContacts` object that builds request paths, sends authenticated HTTPS
requests, follows `rel="next"` links through a paginated contacts feed and
flattens each feed entry into a simple contact. This project models the parts
of `index.js` that are logic rather than plumbing, and proves what they do:

- `params.dfy` (`Params`): the loosely typed parameter objects as a record of
  optional fields. JavaScript truthiness is modelled (an absent or empty string
  is falsy), and so is lodash `_.extend`: a property the later source owns
  wins, even when its value is falsy.
- `querystring.dfy` (`QueryString`): Node's `querystring.stringify` on strings
  of Unicode scalar values. It percent-encodes the UTF-8 bytes of every character outside
  `A-Z a-z 0-9 - _ . ! ~ * ' ( )`, with upper-case hex, and joins the
  `key=value` pairs with `&`. A reference decoder (`Unescape`, `Parse`) shows
  that nothing is lost.
- `pathbuilder.dfy` (`PathBuilder`): `_buildPath`. It fills in the defaults,
  composes `/m8/feeds/{type}/{email}/{projection}[/{id}]?{query}`, and writes
  the query keys in the order `alt`, `max-results`, `updated-min`, `q`. A
  reference reader (`ParsePath`) recovers the pieces from the path.
- `entries.dfy` (`Entries`): `_saveContactsFromFeed`. In thin mode an entry
  becomes `{name, email, phoneNumber, id}`. In full mode the entry is passed
  through unchanged; an entry is represented by the four fields the thin mode
  reads.
- `http.dfy` (`Http`): the 2xx status check shared by `_get` and
  `refreshAccessToken`, and the error taxonomy.
- `client.dfy` (`Client`): the constructor, `getContact` and its `id` guard,
  and the first request path of `getContacts`. It also holds the page handling
  of `receivedContacts`, as a recursive definition (`Run`) and a loop
  (`GetContacts`) proved equal to it, plus the form body and reply handling of
  `refreshAccessToken`.
- `text.dfy` (`Text`) and `wrappers.dfy` (`Wrappers`): string helpers and
  `Option`/`Result`. `LastIndexOf` has the semantics of lodash `_.lastIndexOf`
  on a string, and `ReplaceFirst` those of `String.prototype.replace` with a
  string pattern. `Join` is the `&`-join inside `querystring.stringify`.
  `Split` serves only the reference readers.

The server is a parameter: a finite sequence of replies, one per request, in
order. Each reply is a transport failure or a status code with a body that
either parsed into a feed or did not. Clocks, sockets and JSON parsing do not
appear.

Three behaviours of `index.js` that are easy to misread:
- `phoneNumber` drops the first `tel:` wherever it occurs, not only at the
  start, because `String.prototype.replace` with a string pattern does that.
- The `getContact` guard tests whether the `id` key is present (`_.has`). An
  `id` that is present but empty therefore passes the guard. The request then
  has no id segment and keeps `max-results`.
- `getContact` merges the caller's parameters over the instance configuration.
  `_buildPath` then merges the instance configuration over the result again.
  So the instance configuration wins on every property except `path`.

## Model

| member | source | states |
|---|---|---|
| Client.NewClient | index.js:27-42 | A string becomes `{token}` and a falsy value becomes `{}`. The accumulator starts empty. Each credential keeps its value when truthy and becomes null otherwise. `thin` becomes true only when it is absent, and every other option is kept as given. |
| Client.GetContact | index.js:126-133 | Fails with `MissingId("No id found in params")`, issuing no request, exactly when the `id` property is absent. Otherwise it requests a path. |
| Client.GetContactById | index.js:129-133 | With a truthy `id`, no truthy caller `path`, and no instance `id` or `path`, the request succeeds. Its path is composed from pieces whose id segment is the caller's `id` and whose query has no `max-results`. |
| Client.GetContactEmptyId | index.js:129-133 | An `id` that is present but empty passes the guard. The path is then composed with no id segment and keeps `max-results`. |
| Client.ContactsRequestPath | index.js:100 | The first request path of `getContacts`: `{type: 'contacts'}`, then the caller's parameters, then the instance configuration, handed to `_buildPath`. No contract of its own; `Client.TokenClientRequestsDefaultFeed` states what it yields. |
| Client.TokenClientRequestsDefaultFeed | index.js:100 | A client built from a bare token, calling `getContacts` with no path-shaping parameters, requests `/m8/feeds/contacts/default/thin?alt=json&max-results=10000`. A caller's `thin` has no effect, because the instance's `thin: true` wins both merges. |
| Client.Run | index.js:101-123 | Page handling over the replies: the accumulator only grows, and any non-empty list delivered is the whole accumulator. |
| Client.GetContacts | index.js:97-124 | The loop over the replies ends with the same accumulator and the same delivery as `Run`. Nothing else in the client changes. When nothing is delivered, every reply has been read. A delivery consumes at least one reply. |
| Client.RunStep | index.js:106-118 | A non-empty page with a `next` link appends its normalised entries and moves on to the next reply. |
| Client.RunThroughPages | index.js:104-118 | Any run of non-empty pages that each have a `next` link appends their normalised entries, in page order. |
| Client.RunLastPage | index.js:110-122 | A non-empty page without a `next` link appends its entries and delivers the whole accumulator. |
| Client.AllPagesDelivered | index.js:104-122 | For pages P1..Pn, where all are non-empty and only Pn lacks a `next` link, the delivered list and the final accumulator are both the prior accumulator followed by the normalised entries of all n pages, in order. |
| Client.EmptyPageDeliversEmpty | index.js:104-108 | An empty page delivers `[]`, even after earlier pages were accumulated. The accumulator is left as those earlier pages left it. |
| Client.FailureDelivered | index.js:102 | A failed reply ends the chain with its error. The pages before it stay accumulated. |
| Client.CollectedCount | index.js:145-158 | Pages of K entries each contribute K contacts each. |
| Client.PagesTimesSize | index.js:104-122 | N chained pages of K entries, starting from an empty accumulator, deliver N*K contacts. |
| Client.SecondFetchRepeatsFirst | index.js:35 | The accumulator persists on the instance. A second complete fetch delivers the first fetch's contacts followed by its own. |
| Client.RefreshBodyFields | index.js:200-217 | The token-refresh body holds exactly `refresh_token`, `client_id`, `client_secret` and `grant_type`, in that order, and reads back to them. It is ASCII, so `body.length` is its byte count. |
| Client.RefreshOutcome | index.js:223-234 | A non-2xx status gives `BadStatus(status)`. Otherwise a body that does not parse is an error, and a parsed body yields its `access_token`. |
| Client.RefreshRequestBody | index.js:200-208 | The form body of `refreshAccessToken`. No contract of its own; `Client.RefreshBodyFields` states its fields, their order, the read-back and that it is ASCII. |
| Http.HandleResponse | index.js:79-90 | Success exactly when the status is in [200, 300) and the body parsed. The status is checked before the body. |
| Params.ExtendIdentity | index.js:165 | `{}` is neutral on either side of `_.extend`. |
| Params.ExtendAssociative | index.js:100 | A chain of `_.extend` sources can be grouped in any way. |
| Params.Extend | index.js:165 | lodash `_.extend` as a property-wise override, a property the later source owns winning even when its value is falsy. No contract of its own; `Params.ExtendIdentity`, `Params.ExtendAssociative` and `Params.ExtendIdempotent` state its laws. |
| Params.ExtendIdempotent | index.js:165 | Merging the instance configuration a second time, as `_buildPath` does after `getContacts` already has, changes nothing. |
| PathBuilder.BuildPathVerbatim | index.js:163 | A truthy caller `path` is returned verbatim. Other fields and the instance configuration have no effect. |
| PathBuilder.BuildPath | index.js:162-192 | `_buildPath` itself. No contract of its own; its properties are stated by `PathBuilder.BuildPathVerbatim`, `PathBuilder.DefaultPath`, `PathBuilder.DefaultQuery`, `PathBuilder.ProjectionChoice`, `PathBuilder.QueryShape`, `PathBuilder.IdSegment`, `PathBuilder.InstanceConfigWins` and `PathBuilder.BuildPathRoundTrip`. |
| PathBuilder.DefaultPath | index.js:165-191 | Without overrides, the path is `/m8/feeds/contacts/default/` + (`thin` if the merged flag is on, else `full`) + `?alt=json&max-results=10000`. |
| PathBuilder.DefaultQuery | index.js:172-176 | Without query overrides, the query string is `alt=json&max-results=10000`. |
| PathBuilder.ProjectionChoice | index.js:168 | A truthy `projection` beats the thin flag. Otherwise the flag chooses `thin` or `full`. |
| PathBuilder.QueryShape | index.js:172-182 | `alt` always comes first, and keys appear strictly in the order alt, max-results, updated-min, q. `max-results` is present exactly when `id` is falsy. `updated-min` is present exactly when it is truthy. `q` is present exactly when `q` or `query` is truthy, and `q` takes precedence. |
| PathBuilder.IdSegment | index.js:176-189 | A truthy `id` is appended as `/{id}` and suppresses `max-results`. A falsy one adds no segment and keeps `max-results`. |
| PathBuilder.InstanceConfigWins | index.js:165 | Once the instance owns every path property, caller parameters can change the path only through a truthy `path`. |
| PathBuilder.ParseRender | index.js:184-189 | Every well-formed set of path pieces is read back exactly from the path composed from it. |
| PathBuilder.BuildPathRoundTrip | index.js:162-192 | A built path reads back to exactly the defaults-filled parameters it was made from, provided the raw segments contain no `/` or `?`. |
| PathBuilder.StringifyHasNoQuestionMark | index.js:189 | A stringified query never contains `?`. |
| QueryString.Escape | index.js:189 | The escaped text uses only unreserved characters and `%`. |
| QueryString.EscapeLength | index.js:189 | Escaping never shortens a string, and leaves it unchanged exactly when every character is unreserved. |
| QueryString.EscapeUnreserved | index.js:189 | A string of unreserved characters is its own escape. |
| QueryString.UnescapeEscape | index.js:189 | Escaping loses nothing: `Unescape(Escape(s)) == Some(s)` for every string, including characters beyond ASCII. |
| QueryString.DecodeEscapedChar | index.js:189 | The `%XX` UTF-8 bytes of a reserved character decode back to that character. |
| QueryString.Utf8Payload | index.js:189 | The code point of a character is recovered from its UTF-8 bytes, and the lead and continuation bytes lie in their ranges. |
| QueryString.ParseStringify | index.js:189 | `Parse(Stringify(pairs)) == Some(pairs)` for every non-empty list of pairs. |
| QueryString.Stringify | index.js:189 | `querystring.stringify`: each key and value escaped, joined by `=` and `&`. No contract of its own; `QueryString.ParseStringify` (it reads back) and `QueryString.StringifyIsAscii` state its properties. |
| QueryString.EscapedHasNoSeparators | index.js:189 | Escaped text never contains `&`, `=`, `/` or `?`. |
| QueryString.StringifyIsAscii | index.js:208-217 | A stringified query is plain ASCII. |
| Entries.Normalize | index.js:143-157 | Full mode passes the entry through unchanged. Thin mode produces a thin contact whose `id` contains no `/`. |
| Entries.NormalizeAll | index.js:145-158 | One contact per entry, in entry order, each the normalisation of its entry. |
| Entries.IdFromUrl | index.js:148-153 | The id is a suffix of the URL and contains no `/`. It is either the whole URL or is preceded by a `/`. |
| Entries.IdAfterLastSlash | index.js:153 | Appending `/id` to any URL and extracting gives `id` back. |
| Entries.IdWithoutSlash | index.js:153 | A URL without `/` is its own id (`lastIndexOf` returns -1). |
| Entries.StripTelScheme | index.js:152 | A `tel:` URI loses exactly its scheme. |
| Entries.StripTelAbsent | index.js:152 | A URI that does not contain `tel:` is kept as it is. |
| Entries.StripTel | index.js:152 | `.replace('tel:', '')` on the phone URI. No contract of its own; `Entries.StripTelScheme` and `Entries.StripTelAbsent` state its effect. |
| Entries.ThinContact | index.js:147-154 | `name` is the title, and `email` is the first address; both stay absent when missing. `phoneNumber` is `""` when there is no phone URI. `id` is `""` when there is no id URL. |
| Entries.ThinPhoneNumber | index.js:152 | `phoneNumber` is the first phone's `tel:` URI without the scheme. |
| Entries.ThinId | index.js:148-153 | `id` is the last segment of the entry's id URL. |
| Entries.ThinTypicalEntry | index.js:147-154 | An entry with one email, one `tel:` phone and an id URL maps to exactly that email, number and last segment. |
| Entries.JaneDoe | index.js:147-154 | A typical contact: "Jane Doe", jane@example.com, tel:+15551234567 and an id URL ending `/abc123` give `{name: "Jane Doe", email: "jane@example.com", phoneNumber: "+15551234567", id: "abc123"}`. |
| Text.LastIndexOf | index.js:153 | Returns -1 exactly when the character is absent. Otherwise the result is the index of its last occurrence. |
| Text.ReplaceFirst | index.js:152 | With no occurrence, the string is unchanged. Otherwise only the first occurrence is replaced. |
| Text.SplitJoin | index.js:189 | Splitting a join recovers the pieces when no piece contains the separator. |

## Left out

- HTTPS transport, response streaming, the `Authorization` and `GData-Version` headers, `EventEmitter` inheritance and debug logging are left out. They are network I/O and callback plumbing. The server is a parameter: the sequence of replies.
- `JSON.parse` is left out. Replies arrive already parsed, or flagged as unparseable.
- lodash `_.get` and `_.extend` in their generality are left out. They become explicit record fields and a fixed merge order.
- Property values are strings (with `thin` a boolean). JavaScript values of other types, such as the numeric default `10000` or a string `thin`, are represented by their string form or left out.
- `url.parse(link.href).path` is left out, and so is the path of each follow-up request. It does not affect what is accumulated or delivered.
- When a feed has several `rel="next"` links, the code issues one request per link. The model follows a single chain of replies: it records whether a `next` link exists, not how many there are.
- Pagination that never ends is left out. The replies are finite, and a chain that is still waiting when they run out ends in `Awaiting`.
- The text of the status error (`Bad client request status: N`) is left out. The error carries the status code instead.
- The reply handling of `getContact` is not separately modelled. The body goes through the same status and parse checks as any reply (`Http.HandleResponse`) and is handed over unchanged.
- The argument shuffling of `_get` and `refreshAccessToken`, where a function given in place of `params` is taken as the callback, is left out.
- `_.defaults` writes `thin` into the caller's own options object, and the delivered list is the accumulator array itself (so later pushes would show through it). Neither aliasing effect is modelled.
- Strings are sequences of Unicode scalar values. JavaScript strings are UTF-16 code units, and a lone surrogate in a query value makes Node's `querystring.escape` throw (index.js:189, reached from `_get`). That input and the exception are left out.
- A feed entry is represented by the four fields the thin mode reads (`id.$t`, `title.$t`, `gd$email`, `gd$phoneNumber`). Full mode passes this projection through unchanged, where index.js:156 pushes the whole JSON entry.
- tests/test.js is left out. It is a live-network smoke test.
