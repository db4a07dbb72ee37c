/** The entry normaliser (`_saveContactsFromFeed`): in thin mode a raw feed
    entry becomes `{name, email, phoneNumber, id}`; in full mode it is kept as
    it came. */
module Entries {
  import opened Wrappers
  import Text

  /** One element of `gd$email`; `address` may be missing. */
  datatype EmailField = EmailField(address: Option<string>)

  /** One element of `gd$phoneNumber`; `uri` may be missing. */
  datatype PhoneField = PhoneField(uri: Option<string>)

  /** The parts of a feed entry the normaliser reads: `id.$t`, `title.$t`,
      `gd$email` and `gd$phoneNumber` (a missing list is an empty one). */
  datatype RawEntry = RawEntry(
    idUrl: Option<string>,
    title: Option<string>,
    emails: seq<EmailField>,
    phones: seq<PhoneField>)

  /** A contact as the client delivers it. */
  datatype Contact =
    | Thin(name: Option<string>, email: Option<string>, phoneNumber: string, id: string)
    | Full(entry: RawEntry)

  /** The text after the last `/` of `url`, or all of it when there is none. */
  function IdFromUrl(url: string): (id: string)
    ensures '/' !in id
    ensures |id| <= |url| && url[|url| - |id|..] == id
    ensures |id| == |url| || url[|url| - |id| - 1] == '/'
  {
    url[Text.LastIndexOf(url, '/') + 1..]
  }

  /** The first `"tel:"` removed, wherever it occurs. */
  function StripTel(uri: string): string {
    Text.ReplaceFirst(uri, "tel:", "")
  }

  /** `_.get(entry, 'gd$email.0.address')`. */
  function FirstEmail(e: RawEntry): Option<string> {
    if |e.emails| == 0 then None else e.emails[0].address
  }

  /** `_.get(entry, 'gd$phoneNumber.0.uri', '')`. */
  function FirstPhoneUri(e: RawEntry): string {
    if |e.phones| == 0 then "" else e.phones[0].uri.GetOr("")
  }

  /** One entry as `_saveContactsFromFeed` pushes it. */
  function Normalize(thin: bool, e: RawEntry): (c: Contact)
    ensures !thin ==> c == Full(e)
    ensures thin ==> c.Thin? && '/' !in c.id
  {
    if thin then
      Thin(e.title, FirstEmail(e), StripTel(FirstPhoneUri(e)), IdFromUrl(e.idUrl.GetOr("")))
    else Full(e)
  }

  /** Every entry of a page, normalised, in page order. */
  function NormalizeAll(thin: bool, es: seq<RawEntry>): (r: seq<Contact>)
    ensures |r| == |es|
    ensures forall i :: 0 <= i < |es| ==> r[i] == Normalize(thin, es[i])
  {
    if |es| == 0 then [] else [Normalize(thin, es[0])] + NormalizeAll(thin, es[1..])
  }

  // ---------------------------------------------------------------------
  // Properties
  // ---------------------------------------------------------------------

  /** The id is what follows the last `/`: appending `/id` to any URL and
      extracting gives `id` back. */
  lemma IdAfterLastSlash(prefix: string, id: string)
    requires '/' !in id
    ensures IdFromUrl(prefix + "/" + id) == id
  {
    var url := prefix + "/" + id;
    var r := IdFromUrl(url);
    assert url[|url| - |id| - 1] == '/';
    assert url[|url| - |id|..] == id;
  }

  /** A URL without `/` is its own id. */
  lemma IdWithoutSlash(url: string)
    requires '/' !in url
    ensures IdFromUrl(url) == url
  {
  }

  /** A `tel:` URI loses exactly its scheme. */
  lemma StripTelScheme(number: string)
    ensures StripTel("tel:" + number) == number
  {
    assert Text.OccursAt("tel:" + number, "tel:", 0);
  }

  /** A URI without `tel:` is kept as it is. */
  lemma StripTelAbsent(uri: string)
    requires forall j :: !Text.OccursAt(uri, "tel:", j)
    ensures StripTel(uri) == uri
  {
  }

  /** What thin mode keeps of an entry: the title as `name` and the first
      email address as `email`, both absent when missing; an empty
      `phoneNumber` when there is no phone URI; an empty `id` when there is
      no id URL. */
  lemma ThinContact(e: RawEntry)
    ensures Normalize(true, e).Thin?
    ensures Normalize(true, e).name == e.title
    ensures |e.emails| == 0 ==> Normalize(true, e).email.None?
    ensures |e.emails| > 0 ==> Normalize(true, e).email == e.emails[0].address
    ensures FirstPhoneUri(e) == "" ==> Normalize(true, e).phoneNumber == ""
    ensures |e.phones| == 0 || e.phones[0].uri.None? ==> FirstPhoneUri(e) == ""
    ensures e.idUrl.None? ==> Normalize(true, e).id == ""
  {
    StripTelEmpty();
  }

  lemma StripTelEmpty()
    ensures StripTel("") == ""
  {
  }

  /** Thin mode's `phoneNumber` is the first phone's `tel:` URI without its scheme. */
  lemma ThinPhoneNumber(e: RawEntry, number: string)
    requires |e.phones| > 0 && e.phones[0].uri == Some("tel:" + number)
    ensures Normalize(true, e).phoneNumber == number
  {
    StripTelScheme(number);
  }

  /** Thin mode's `id` is the last segment of the id URL. */
  lemma ThinId(e: RawEntry, prefix: string, id: string)
    requires '/' !in id && e.idUrl == Some(prefix + "/" + id)
    ensures Normalize(true, e).id == id
  {
    IdAfterLastSlash(prefix, id);
  }

  /** A typical entry: one email, one `tel:` phone, an id URL. */
  lemma ThinTypicalEntry(title: string, email: string, number: string, prefix: string, id: string)
    requires '/' !in id
    ensures Normalize(true, RawEntry(Some(prefix + "/" + id), Some(title),
                                     [EmailField(Some(email))], [PhoneField(Some("tel:" + number))]))
         == Thin(Some(title), Some(email), number, id)
  {
    var e := RawEntry(Some(prefix + "/" + id), Some(title), [EmailField(Some(email))], [PhoneField(Some("tel:" + number))]);
    ThinPhoneNumber(e, number);
    ThinId(e, prefix, id);
  }

  /** A typical contact in thin mode. */
  lemma JaneDoe(url: string, uri: string)
    requires url == "http://www.google.com/m8/feeds/contacts/jane%40example.com/base/abc123"
    requires uri == "tel:+15551234567"
    ensures Normalize(true, RawEntry(Some(url), Some("Jane Doe"),
                                     [EmailField(Some("jane@example.com"))], [PhoneField(Some(uri))]))
         == Thin(Some("Jane Doe"), Some("jane@example.com"), "+15551234567", "abc123")
  {
    var prefix := "http://www.google.com/m8/feeds/contacts/jane%40example.com/base";
    assert url == prefix + "/" + "abc123";
    assert uri == "tel:" + "+15551234567";
    ThinTypicalEntry("Jane Doe", "jane@example.com", "+15551234567", prefix, "abc123");
  }
}
