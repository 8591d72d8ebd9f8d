/** The parts of the browser API client in api.js that decide what a request carries: the CSRF
    token read from the cookie string, the request headers, and the toast fallbacks. */
module Api {
  import opened Common

  const CSRF_PREFIX: string := "XSRF-TOKEN="
  const COOKIE_SEPARATOR: string := "; "

  // ------------------------------------------------------------ getCSRFToken

  /** `Array.prototype.find` over the cookie entries: the first one starting with the prefix. */
  function FindCsrfEntry(entries: seq<string>): (r: Option<nat>)
    ensures r.Some? ==> r.value < |entries| && StartsWith(entries[r.value], CSRF_PREFIX)
    ensures r.Some? ==> forall k :: 0 <= k < r.value ==> !StartsWith(entries[k], CSRF_PREFIX)
    ensures r.None? ==> forall k :: 0 <= k < |entries| ==> !StartsWith(entries[k], CSRF_PREFIX)
    decreases |entries|
  {
    if entries == [] then None
    else if StartsWith(entries[0], CSRF_PREFIX) then Some(0)
    else
      match FindCsrfEntry(entries[1..])
      case None => None
      case Some(k) => Some(k + 1)
  }

  /** The '=' closing the prefix is the first '=' of the entry. */
  lemma PrefixEquals(entry: string)
    requires StartsWith(entry, CSRF_PREFIX)
    ensures IndexOf(entry, "=") == Some(|CSRF_PREFIX| - 1)
  {
    var at := |CSRF_PREFIX| - 1;
    assert entry[..|CSRF_PREFIX|] == CSRF_PREFIX;
    assert entry[at] == '=';
    assert OccursAt(entry, "=", at) by { assert entry[at..at + 1] == [entry[at]]; }
    forall r | 0 <= r < at
      ensures !OccursAt(entry, "=", r)
    {
      assert entry[r] == CSRF_PREFIX[r];
      assert entry[r..r + 1][0] == entry[r];
    }
  }

  /** `entry.split('=')[1]`: the text between the first and the second '=' of the entry. */
  function EntryValue(entry: string): (v: string)
    requires StartsWith(entry, CSRF_PREFIX)
    ensures forall j :: !OccursAt(v, "=", j)
  {
    PrefixEquals(entry);
    var parts := Split(entry, "=");
    assert parts == [entry[..|CSRF_PREFIX| - 1]] + Split(entry[|CSRF_PREFIX|..], "=");
    assert |parts| >= 2;
    forall j ensures !OccursAt(parts[1], "=", j) { SplitPiecesAvoidSeparator(entry, "=", 1, j); }
    parts[1]
  }

  /** `getCSRFToken` (before URI decoding): the value of the first cookie entry carrying the
      prefix; no such entry, or an empty value, gives none. */
  function CsrfToken(cookie: string): (t: Option<string>)
    ensures t.Some? ==> t.value != "" && forall j :: !OccursAt(t.value, "=", j)
    ensures (forall k :: 0 <= k < |Split(cookie, COOKIE_SEPARATOR)| ==>
               !StartsWith(Split(cookie, COOKIE_SEPARATOR)[k], CSRF_PREFIX)) ==> t.None?
  {
    var entries := Split(cookie, COOKIE_SEPARATOR);
    match FindCsrfEntry(entries)
    case None => None
    case Some(k) =>
      var v := EntryValue(entries[k]);
      if v == "" then None else Some(v)
  }

  /** The value is read up to the next '=' and whatever follows a second '=' is dropped; a value
      with no '=' is read whole. */
  lemma EntryValueStopsAtEquals(v: string, rest: string)
    requires forall k :: 0 <= k < |v| ==> v[k] != '='
    ensures EntryValue(CSRF_PREFIX + v) == v
    ensures EntryValue(CSRF_PREFIX + v + "=" + rest) == v
  {
    forall j | 0 <= j <= |v|
      ensures !OccursAt(v, "=", j)
    {
      if j < |v| { assert v[j..j + 1][0] == v[j]; }
    }
    assert IndexOf(v, "=") == None;
    var whole := CSRF_PREFIX + v;
    assert StartsWith(whole, CSRF_PREFIX) by { assert whole[..|CSRF_PREFIX|] == CSRF_PREFIX; }
    PrefixEquals(whole);
    assert whole[|CSRF_PREFIX|..] == v;
    assert Split(v, "=") == [v];

    var longer := CSRF_PREFIX + v + "=" + rest;
    var tail := v + "=" + rest;
    assert StartsWith(longer, CSRF_PREFIX) by { assert longer[..|CSRF_PREFIX|] == CSRF_PREFIX; }
    PrefixEquals(longer);
    assert longer[|CSRF_PREFIX|..] == tail;
    forall j | 0 <= j < |v|
      ensures !OccursAt(tail, "=", j)
    {
      assert tail[j..j + 1][0] == tail[j] == v[j];
    }
    assert OccursAt(tail, "=", |v|) by { assert tail[|v|..|v| + 1] == [tail[|v|]]; }
    var found := IndexOf(tail, "=");
    assert found == Some(|v|);
    assert tail[..|v|] == v;
    assert Split(tail, "=")[0] == v;
    assert Split(longer, "=") == [longer[..|CSRF_PREFIX| - 1]] + Split(tail, "=");
  }

  /** A cookie whose first entry carrying the prefix has nothing after the prefix, or only an
      '=' and more text, yields no token. */
  lemma EmptyEntryValue(cookie: string, rest: string)
    requires var entries := Split(cookie, COOKIE_SEPARATOR);
      var found := FindCsrfEntry(entries);
      found.Some? && (entries[found.value] == CSRF_PREFIX || entries[found.value] == CSRF_PREFIX + "=" + rest)
    ensures CsrfToken(cookie) == None
  {
    EntryValueStopsAtEquals("", rest);
    assert CSRF_PREFIX + "" == CSRF_PREFIX;
    assert CSRF_PREFIX + "" + "=" + rest == CSRF_PREFIX + "=" + rest;
  }

  // -------------------------------------------------------------- getHeaders

  /** The `contentType` argument of `getHeaders`: left out (the JSON default applies), `null`,
      or a string. */
  datatype ContentTypeArg = Omitted | NullType | Given(value: string)

  const JSON: string := "application/json"

  /** The content type after the default parameter is applied, if any. */
  function EffectiveContentType(arg: ContentTypeArg): Option<string> {
    match arg
    case Omitted => Some(JSON)
    case NullType => None
    case Given(s) => Some(s)
  }

  /** JavaScript truthiness of a value that is null or a string. */
  predicate Truthy(v: Option<string>) { v.Some? && v.value != "" }

  /** The client's stored credentials; `token` is what `localStorage` held at construction and
      `csrfToken` what the cookie gave. */
  class Client {
    var token: Option<string>
    var csrfToken: Option<string>

    constructor(stored: Option<string>, cookie: string)
      ensures token == stored && csrfToken == CsrfToken(cookie)
    {
      token := stored;
      csrfToken := CsrfToken(cookie);
    }

    /** `getHeaders`: `Accept` always; `Content-Type` exactly when the content type, after the
        JSON default, is truthy (so an explicit `null` drops it); `Authorization` with the
        bearer token and `X-CSRF-Token` exactly when those are set; nothing else. */
    method GetHeaders(contentType: ContentTypeArg) returns (headers: map<string, string>)
      ensures "Accept" in headers && headers["Accept"] == JSON
      ensures "Content-Type" in headers <==> Truthy(EffectiveContentType(contentType))
      ensures "Content-Type" in headers ==> headers["Content-Type"] == EffectiveContentType(contentType).value
      ensures "Authorization" in headers <==> Truthy(token)
      ensures "Authorization" in headers ==> headers["Authorization"] == "Bearer " + token.value
      ensures "X-CSRF-Token" in headers <==> Truthy(csrfToken)
      ensures "X-CSRF-Token" in headers ==> headers["X-CSRF-Token"] == csrfToken.value
      ensures headers.Keys <= {"Accept", "Content-Type", "Authorization", "X-CSRF-Token"}
    {
      assert "Content-Type"[0] != "X-CSRF-Token"[0] && "Accept"[1] != "Authorization"[1];
      var effective := EffectiveContentType(contentType);
      headers := map["Accept" := JSON];
      if effective.Some? && effective.value != "" {
        headers := headers["Content-Type" := effective.value];
      }
      if token.Some? && token.value != "" {
        headers := headers["Authorization" := "Bearer " + token.value];
      }
      if csrfToken.Some? && csrfToken.value != "" {
        headers := headers["X-CSRF-Token" := csrfToken.value];
      }
    }
  }

  // ------------------------------------------------------------------ toasts

  const ToastIcons: map<string, string> := map[
    "success" := "\U{2705}", "error" := "\U{274C}",
    "warning" := "\U{26A0}\U{FE0F}", "info" := "\U{2139}\U{FE0F}"]

  const ToastTitles: map<string, string> := map[
    "success" := "Success", "error" := "Error", "warning" := "Warning", "info" := "Info"]

  /** `table[kind] || table.info`: a missing entry reads `undefined`, which is falsy. */
  function OrInfo(table: map<string, string>, kind: string): string
    requires "info" in table
  {
    if kind in table && table[kind] != "" then table[kind] else table["info"]
  }

  /** `getToastIcon`. */
  function ToastIcon(kind: string): (icon: string)
    ensures kind in ToastIcons ==> icon == ToastIcons[kind]
    ensures kind !in ToastIcons ==> icon == ToastIcons["info"]
  {
    OrInfo(ToastIcons, kind)
  }

  /** `getToastTitle`. */
  function ToastTitle(kind: string): (title: string)
    ensures kind in ToastTitles ==> title == ToastTitles[kind]
    ensures kind !in ToastTitles ==> title == "Info"
  {
    OrInfo(ToastTitles, kind)
  }

  /** Any type other than the four known ones is shown exactly as an `info` toast, while the four
      known types are told apart by their titles and by their icons. */
  lemma ToastFallsBackToInfo(kind: string, other: string)
    ensures kind !in {"success", "error", "warning", "info"} ==>
      ToastIcon(kind) == ToastIcon("info") && ToastTitle(kind) == ToastTitle("info")
    ensures kind in {"success", "error", "warning", "info"} && other in {"success", "error", "warning", "info"} ==>
      (ToastTitle(kind) == ToastTitle(other) <==> kind == other)
      && (ToastIcon(kind) == ToastIcon(other) <==> kind == other)
  {
    assert ToastIcons.Keys == {"success", "error", "warning", "info"};
    assert ToastTitles.Keys == {"success", "error", "warning", "info"};
  }
}
