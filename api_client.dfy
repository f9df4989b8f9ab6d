/**
 * The client-side rules of the service layer: the error-message and image-URL
 * helpers, the two interceptors (the auth header on every request and the
 * token removal on a 401), and the multipart form `createPost` assembles.
 */
module ApiClient {
  import opened Wrappers
  import opened Text

  // ----- Error messages -----

  /** The parts of a rejected request the message is read from; `None` is an absent property. */
  datatype ErrorInfo = ErrorInfo(detail: Option<string>, error: Option<string>, message: Option<string>)

  /** A string property is truthy when present and non-empty. */
  predicate Truthy(v: Option<string>)
  {
    v.Some? && v.value != ""
  }

  const UnknownError := "알 수 없는 오류가 발생했습니다."

  /** `apiUtils.getErrorMessage`: the first truthy of detail, error and message, else the fixed text. */
  function GetErrorMessage(e: ErrorInfo): (r: string)
    ensures r != ""
    ensures Truthy(e.detail) ==> r == e.detail.value
    ensures !Truthy(e.detail) && Truthy(e.error) ==> r == e.error.value
    ensures !Truthy(e.detail) && !Truthy(e.error) && Truthy(e.message) ==> r == e.message.value
    ensures !Truthy(e.detail) && !Truthy(e.error) && !Truthy(e.message) ==> r == UnknownError
  {
    if Truthy(e.detail) then e.detail.value
    else if Truthy(e.error) then e.error.value
    else if Truthy(e.message) then e.message.value
    else UnknownError
  }

  /** The message is always one the error carried, or the fixed text. */
  lemma ErrorMessageSource(e: ErrorInfo)
    ensures var r := GetErrorMessage(e);
      (Truthy(e.detail) && r == e.detail.value) ||
      (Truthy(e.error) && r == e.error.value) ||
      (Truthy(e.message) && r == e.message.value) ||
      r == UnknownError
  {
  }

  // ----- Image URLs -----

  const ServerOrigin := "http://127.0.0.1:8000"

  /** `apiUtils.getImageUrl`: no path gives '', an `http…` path is kept, any other path is put under the server. */
  function GetImageUrl(imagePath: Option<string>): (r: string)
    ensures !Truthy(imagePath) ==> r == ""
    ensures Truthy(imagePath) && "http" <= imagePath.value ==> r == imagePath.value
    ensures Truthy(imagePath) && !("http" <= imagePath.value) ==> r == ServerOrigin + imagePath.value
  {
    if !Truthy(imagePath) then ""
    else if "http" <= imagePath.value then imagePath.value
    else ServerOrigin + imagePath.value
  }

  /** Every non-empty URL starts with `http`, so completing a completed URL changes nothing. */
  lemma GetImageUrlIdempotent(imagePath: Option<string>)
    ensures var r := GetImageUrl(imagePath);
      (r == "" || "http" <= r) && GetImageUrl(Some(r)) == r
  {
    var r := GetImageUrl(imagePath);
    if Truthy(imagePath) && !("http" <= imagePath.value) {
      assert r[..4] == ServerOrigin[..4];
    }
  }

  // ----- Interceptors -----

  /** The browser's `localStorage`: string items by key. */
  class LocalStorage {
    var items: map<string, string>

    constructor ()
      ensures items == map[]
    {
      items := map[];
    }

    /** `getItem`: the stored value, or nothing. */
    function GetItem(key: string): (r: Option<string>)
      reads this
      ensures r.Some? <==> key in items
      ensures r.Some? ==> r.value == items[key]
    {
      if key in items then Some(items[key]) else None
    }

    method SetItem(key: string, value: string)
      modifies this
      ensures items == old(items)[key := value]
    {
      items := items[key := value];
    }

    method RemoveItem(key: string)
      modifies this
      ensures items == old(items) - {key}
    {
      items := items - {key};
    }
  }

  const TokenKey := "authToken"

  /** The headers a request leaves with: `Authorization: Token <t>` added when a truthy token is stored. */
  function WithAuth(headers: map<string, string>, token: Option<string>): (h: map<string, string>)
    ensures Truthy(token) ==> "Authorization" in h && h["Authorization"] == "Token " + token.value
    ensures Truthy(token) ==> h.Keys == headers.Keys + {"Authorization"}
    ensures !Truthy(token) ==> h == headers
    ensures forall k :: k in headers && k != "Authorization" ==> k in h && h[k] == headers[k]
  {
    if Truthy(token) then headers["Authorization" := "Token " + token.value] else headers
  }

  /** The request config the interceptor mutates. */
  class RequestConfig {
    var headers: map<string, string>

    constructor (headers: map<string, string>)
      ensures this.headers == headers
    {
      this.headers := headers;
    }
  }

  /** The request interceptor: the stored token, if any, goes into the config's headers. */
  method AuthorizeRequest(storage: LocalStorage, config: RequestConfig) returns (out: RequestConfig)
    modifies config
    ensures out == config
    ensures config.headers == WithAuth(old(config.headers), storage.GetItem(TokenKey))
  {
    var token := storage.GetItem(TokenKey);
    if Truthy(token) {
      config.headers := config.headers["Authorization" := "Token " + token.value];
    }
    out := config;
  }

  /** A failed response: its HTTP status, when there was a response, and what the message is read from. */
  datatype HttpError = HttpError(status: Option<int>, info: ErrorInfo)

  /** The response interceptor's error branch: a 401 drops the token; the error is passed on as it came. */
  method RejectResponse(storage: LocalStorage, error: HttpError) returns (rejected: HttpError)
    modifies storage
    ensures rejected == error
    ensures error.status == Some(401) ==> storage.items == old(storage.items) - {TokenKey}
    ensures error.status != Some(401) ==> storage.items == old(storage.items)
  {
    if error.status == Some(401) {
      storage.RemoveItem(TokenKey);
    }
    rejected := error;
  }

  /** After a 401 no later request carries a token until one is stored again. */
  lemma UnauthorizedThenAnonymous(items: map<string, string>, headers: map<string, string>)
    ensures var after := items - {TokenKey};
      TokenKey !in after && WithAuth(headers, if TokenKey in after then Some(after[TokenKey]) else None) == headers
  {
  }

  // ----- Multipart posts -----

  /** An uploaded file; only its identity matters here. */
  datatype File = File(name: string)

  /** The values an entry of the post data can hold. */
  datatype FieldValue = Undefined | Null | Str(s: string) | Num(n: int) | FileValue(file: File)

  /** One part of the multipart body. */
  datatype FormEntry = TextPart(key: string, text: string) | FilePart(key: string, file: File)

  /** `value.toString()` for the values the post data holds. */
  function Stringify(v: FieldValue): string
  {
    match v
    case Str(s) => s
    case Num(n) => IntToDecimal(n)
    case FileValue(_) => "[object File]"
    case _ => ""
  }

  predicate Present(v: FieldValue)
  {
    v != Undefined && v != Null
  }

  /** The part one entry contributes: a file part for a File under `image`, a text part for any other present value. */
  function PartOf(key: string, v: FieldValue): (r: Option<FormEntry>)
    ensures r.Some? <==> Present(v)
    ensures r.Some? ==> r.value.key == key
  {
    if key == "image" && v.FileValue? then Some(FilePart(key, v.file))
    else if Present(v) then Some(TextPart(key, Stringify(v)))
    else None
  }

  /** The form the `forEach` fills, entry by entry in order. */
  function FormParts(entries: seq<(string, FieldValue)>): seq<FormEntry>
    decreases |entries|
  {
    if entries == [] then []
    else
      var last := entries[|entries| - 1];
      var p := PartOf(last.0, last.1);
      FormParts(entries[..|entries| - 1]) + (if p.Some? then [p.value] else [])
  }

  /** The FormData of `createPost`, appended in the order of `Object.entries`. */
  method BuildFormData(entries: seq<(string, FieldValue)>) returns (form: seq<FormEntry>)
    ensures form == FormParts(entries)
  {
    form := [];
    var i := 0;
    while i < |entries|
      invariant 0 <= i <= |entries|
      invariant form == FormParts(entries[..i])
    {
      var (key, value) := entries[i];
      if key == "image" && value.FileValue? {
        form := form + [FilePart(key, value.file)];
      } else if value != Undefined && value != Null {
        form := form + [TextPart(key, Stringify(value))];
      }
      assert entries[..i + 1][..i] == entries[..i];
      i := i + 1;
    }
    assert entries[..i] == entries;
  }

  /** The keys of the present entries, in entry order. */
  function PresentKeys(entries: seq<(string, FieldValue)>): seq<string>
    decreases |entries|
  {
    if entries == [] then []
    else
      var last := entries[|entries| - 1];
      PresentKeys(entries[..|entries| - 1]) + (if Present(last.1) then [last.0] else [])
  }

  /** The key of each part, in order. */
  function Keys(form: seq<FormEntry>): seq<string>
  {
    seq(|form|, i requires 0 <= i < |form| => form[i].key)
  }

  /** Each present entry is appended exactly once and in entry order; absent and null ones are skipped. */
  lemma {:induction false} FormPartsKeys(entries: seq<(string, FieldValue)>)
    ensures Keys(FormParts(entries)) == PresentKeys(entries)
    decreases |entries|
  {
    if entries != [] {
      var init := entries[..|entries| - 1];
      FormPartsKeys(init);
    }
  }

  /** Parts of a concatenation are the parts of each side. */
  lemma {:induction false} FormPartsConcat(a: seq<(string, FieldValue)>, b: seq<(string, FieldValue)>)
    ensures FormParts(a + b) == FormParts(a) + FormParts(b)
    decreases |b|
  {
    if b == [] {
      assert a + b == a;
    } else {
      var init := b[..|b| - 1];
      assert (a + b)[..|a + b| - 1] == a + init;
      FormPartsConcat(a, init);
    }
  }
}
