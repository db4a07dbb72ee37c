/** The loosely typed parameter objects of the client (`this.params` and the
    caller's `params`) as one record of optional fields: `None` is a property
    that is absent, `Some("")` one that is present but falsy. */
module Params {
  import opened Wrappers

  datatype Params = Params(
    path: Option<string>,
    feedType: Option<string>,        // the `type` property
    alt: Option<string>,
    projection: Option<string>,
    email: Option<string>,
    maxResults: Option<string>,      // the `max-results` property
    id: Option<string>,
    updatedMin: Option<string>,      // the `updated-min` property
    q: Option<string>,
    query: Option<string>,
    thin: Option<bool>,
    token: Option<string>,
    consumerKey: Option<string>,
    consumerSecret: Option<string>,
    refreshToken: Option<string>)

  /** The empty object `{}`. */
  const NoParams := Params(None, None, None, None, None, None, None, None, None, None,
                           None, None, None, None, None)

  /** JavaScript truthiness of a string property: present and non-empty. */
  predicate Truthy(o: Option<string>) {
    o.Some? && o.value != ""
  }

  /** JavaScript truthiness of the boolean `thin` property. */
  predicate IsOn(o: Option<bool>) {
    o == Some(true)
  }

  /** `o || fallback` for a string property. */
  function OrElse(o: Option<string>, fallback: string): (r: string)
    ensures Truthy(o) ==> r == o.value
    ensures !Truthy(o) ==> r == fallback
  {
    if Truthy(o) then o.value else fallback
  }

  /** One property of `_.extend(target, source)`: a property the source owns
      overwrites the target's, even when its value is falsy. */
  function Override<T>(lo: Option<T>, hi: Option<T>): Option<T> {
    if hi.Some? then hi else lo
  }

  /** `_.extend({}, lo, hi)`: every property of `hi` wins over `lo`. */
  function Extend(lo: Params, hi: Params): Params {
    Params(
      Override(lo.path, hi.path),
      Override(lo.feedType, hi.feedType),
      Override(lo.alt, hi.alt),
      Override(lo.projection, hi.projection),
      Override(lo.email, hi.email),
      Override(lo.maxResults, hi.maxResults),
      Override(lo.id, hi.id),
      Override(lo.updatedMin, hi.updatedMin),
      Override(lo.q, hi.q),
      Override(lo.query, hi.query),
      Override(lo.thin, hi.thin),
      Override(lo.token, hi.token),
      Override(lo.consumerKey, hi.consumerKey),
      Override(lo.consumerSecret, hi.consumerSecret),
      Override(lo.refreshToken, hi.refreshToken))
  }

  /** `{}` is neutral on both sides of a merge. */
  lemma ExtendIdentity(p: Params)
    ensures Extend(NoParams, p) == p
    ensures Extend(p, NoParams) == p
  {
  }

  /** Merging is associative, so a chain of `_.extend` sources can be grouped freely. */
  lemma ExtendAssociative(a: Params, b: Params, c: Params)
    ensures Extend(Extend(a, b), c) == Extend(a, Extend(b, c))
  {
  }

  /** Merging the same source twice changes nothing the second time. */
  lemma ExtendIdempotent(a: Params, b: Params)
    ensures Extend(Extend(a, b), b) == Extend(a, b)
  {
  }
}
