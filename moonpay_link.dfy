/**
 * The pure part of the staging MoonPay link signer
 * (functions/src/signMoonpayLinkStaging.ts): query-string serialisation,
 * the choice of API key and secret by platform, and the signed-URL format.
 */
module MoonpayLink {
  import opened Wrappers
  import opened Text
  import opened UriComponent

  /** A request value as JavaScript sees it. */
  datatype QueryValue = Undefined | Null | Str(s: string) | Bool(b: bool) | Int(i: int)

  /** JavaScript truthiness: "", false, 0, null and undefined are falsy. */
  predicate Truthy(v: QueryValue) {
    match v
    case Undefined => false
    case Null => false
    case Str(s) => s != ""
    case Bool(b) => b
    case Int(i) => i != 0
  }

  /** The number a string of decimal digits denotes. */
  function DecimalValue(s: string): nat {
    if s == [] then 0 else 10 * DecimalValue(s[..|s| - 1]) + DigitValue(Last(s))
  }

  function DigitValue(c: char): nat {
    if '0' <= c <= '9' then c as nat - '0' as nat else 0
  }

  /** Decimal digits of a natural number, without leading zeros, as JavaScript prints it. */
  function Decimal(n: nat): (r: string)
    ensures r != []
    ensures forall i :: 0 <= i < |r| ==> '0' <= r[i] <= '9'
    ensures r[0] == '0' ==> n == 0
    ensures DecimalValue(r) == n
    decreases n
  {
    if n < 10 then [('0' as int + n) as char]
    else
      var r := Decimal(n / 10) + [('0' as int + n % 10) as char];
      assert r[..|r| - 1] == Decimal(n / 10);
      r
  }

  /** `String(v)`, the conversion encodeURIComponent applies to its argument. */
  function ToJsString(v: QueryValue): (r: string)
    ensures v.Str? ==> r == v.s
    ensures v.Int? && v.i >= 0 ==> r != [] && r[0] != '-' && DecimalValue(r) == v.i
    ensures v.Int? && v.i < 0 ==> |r| >= 2 && r[0] == '-' && r[1] != '0' && DecimalValue(r[1..]) == -v.i
  {
    match v
    case Undefined => "undefined"
    case Null => "null"
    case Str(s) => s
    case Bool(b) => if b then "true" else "false"
    case Int(i) =>
      if i < 0 then
        var r := "-" + Decimal(-i);
        assert r[1..] == Decimal(-i);
        r
      else Decimal(i)
  }

  /**
   * The falsy values are exactly undefined, null, "", false and 0, and a
   * truthy value never converts to the empty string.
   */
  lemma TruthyIff(v: QueryValue)
    ensures Truthy(v) <==> v !in {Undefined, Null, Str(""), Bool(false), Int(0)}
    ensures Truthy(v) ==> ToJsString(v) != ""
  {
  }

  /** One query parameter: `encodeURIComponent(key)=encodeURIComponent(value)`. */
  function QueryPair(key: string, value: QueryValue): string {
    EncodeUriComponent(key) + "=" + EncodeUriComponent(ToJsString(value))
  }

  /** The number of entries with a truthy value. */
  function TruthyCount(params: seq<(string, QueryValue)>): nat {
    if params == [] then 0
    else TruthyCount(params[..|params| - 1]) + (if Truthy(Last(params).1) then 1 else 0)
  }

  /** The pairs of the truthy entries, in enumeration order. */
  function QueryPairs(params: seq<(string, QueryValue)>): (pairs: seq<string>)
    ensures |pairs| == TruthyCount(params)
  {
    if params == [] then []
    else
      var (key, value) := Last(params);
      QueryPairs(params[..|params| - 1]) + (if Truthy(value) then [QueryPair(key, value)] else [])
  }

  /** The query string: the pairs joined by '&'. */
  function SerializedQuery(params: seq<(string, QueryValue)>): string {
    Join(QueryPairs(params), '&')
  }

  /**
   * serializeQueryParams: walks the entries in enumeration order and keeps
   * the pair of every truthy value, then joins the pairs with '&'. The
   * sequence of entries is the object's property enumeration order.
   */
  method SerializeQueryParams(params: seq<(string, QueryValue)>) returns (query: string)
    ensures query == SerializedQuery(params)
  {
    var queryString: seq<string> := [];
    for i := 0 to |params|
      invariant queryString == QueryPairs(params[..i])
    {
      var (param, value) := params[i];
      assert params[..i + 1][..i] == params[..i];
      if Truthy(value) {
        queryString := queryString + [EncodeUriComponent(param) + "=" + EncodeUriComponent(ToJsString(value))];
      }
    }
    assert params[..|params|] == params;
    query := Join(queryString, '&');
  }

  /** Each pair holds exactly one '=', between the encoded key and the encoded value, and no '&'. */
  lemma QueryPairShape(key: string, value: QueryValue)
    ensures Split(QueryPair(key, value), '=') == [EncodeUriComponent(key), EncodeUriComponent(ToJsString(value))]
    ensures '&' !in QueryPair(key, value)
  {
    NoDelimiters(key);
    NoDelimiters(ToJsString(value));
    SplitJoin([EncodeUriComponent(key), EncodeUriComponent(ToJsString(value))], '=');
  }

  /**
   * The entry at position k, when truthy, gives the pair at the position
   * counting the truthy entries before it; a falsy entry gives no pair.
   */
  lemma {:induction false} PairOfEntry(params: seq<(string, QueryValue)>, k: nat)
    requires k < |params| && Truthy(params[k].1)
    ensures TruthyCount(params[..k]) < |QueryPairs(params)|
    ensures QueryPairs(params)[TruthyCount(params[..k])] == QueryPair(params[k].0, params[k].1)
  {
    var n := |params|;
    var init := params[..n - 1];
    if k == n - 1 {
      assert params[..k] == init;
    } else {
      assert init[..k] == params[..k];
      PairOfEntry(init, k);
    }
  }

  lemma FirstEntryFirstPair(params: seq<(string, QueryValue)>)
    requires |params| > 0 && Truthy(params[0].1)
    ensures QueryPairs(params) != [] && QueryPairs(params)[0] == QueryPair(params[0].0, params[0].1)
  {
    assert params[..0] == [];
    PairOfEntry(params, 0);
  }

  /** Every pair is '&'-free, and the pairs are never empty. */
  lemma {:induction false} PairsWellFormed(params: seq<(string, QueryValue)>)
    ensures forall i :: 0 <= i < |QueryPairs(params)| ==>
      '&' !in QueryPairs(params)[i] && QueryPairs(params)[i] != []
  {
    if params != [] {
      var (key, value) := Last(params);
      PairsWellFormed(params[..|params| - 1]);
      QueryPairShape(key, value);
    }
  }

  /** The query string is empty exactly when no value is truthy. */
  lemma EmptyIffNoTruthyValue(params: seq<(string, QueryValue)>)
    ensures SerializedQuery(params) == "" <==> TruthyCount(params) == 0
  {
    var pairs := QueryPairs(params);
    if |pairs| > 0 {
      PairsWellFormed(params);
      JoinStartsWithFirstPart(pairs, '&');
    }
  }

  /**
   * With at least one truthy value, splitting the query string on '&' gives
   * back exactly the pairs: one per truthy entry, with no empty piece from a
   * leading, trailing or doubled '&'.
   */
  lemma SplitGivesPairs(params: seq<(string, QueryValue)>)
    requires TruthyCount(params) >= 1
    ensures Split(SerializedQuery(params), '&') == QueryPairs(params)
    ensures |Split(SerializedQuery(params), '&')| == TruthyCount(params)
  {
    PairsWellFormed(params);
    SplitJoin(QueryPairs(params), '&');
  }

  /** The query string neither starts nor ends with '&'. */
  lemma NoOuterSeparator(params: seq<(string, QueryValue)>)
    requires SerializedQuery(params) != ""
    ensures SerializedQuery(params)[0] != '&'
    ensures Last(SerializedQuery(params)) != '&'
  {
    var pairs := QueryPairs(params);
    PairsWellFormed(params);
    JoinStartsWithFirstPart(pairs, '&');
    JoinEndsWithLastPart(pairs, '&');
    assert pairs[0][0] in pairs[0];
    assert Last(Last(pairs)) in Last(pairs);
  }

  /** The staging secrets the function reads from its environment. */
  datatype StagingSecrets = StagingSecrets(
    urlStaging: Option<string>,
    apiKeyStaging: Option<string>,
    secretKeyStaging: Option<string>,
    publishableKeyStagingWeb: Option<string>,
    secretKeyStagingWeb: Option<string>)

  /** The web app gets the web key pair; every other caller the default pair. */
  method SelectStagingKeys(platform: Option<string>, secrets: StagingSecrets)
    returns (apiKey: Option<string>, secretKey: Option<string>)
    ensures platform == Some("web") ==>
      apiKey == secrets.publishableKeyStagingWeb && secretKey == secrets.secretKeyStagingWeb
    ensures platform != Some("web") ==>
      apiKey == secrets.apiKeyStaging && secretKey == secrets.secretKeyStaging
  {
    apiKey, secretKey := secrets.apiKeyStaging, secrets.secretKeyStaging;
    if platform.Some? && platform.value != "" && platform.value == "web" {
      apiKey := secrets.publishableKeyStagingWeb;
      secretKey := secrets.secretKeyStagingWeb;
    }
  }

  /** The request body fields that become query parameters. */
  datatype LinkRequest = LinkRequest(
    baseCurrencyAmount: QueryValue,
    colorCode: QueryValue,
    currencyCode: QueryValue,
    defaultCurrencyCode: QueryValue,
    externalTransactionId: QueryValue,
    externalCustomerId: QueryValue,
    redirectURL: QueryValue,
    walletAddress: QueryValue,
    walletAddresses: QueryValue)

  /** The parameters in the order the link lists them, the API key first. */
  function LinkParams(apiKey: Option<string>, body: LinkRequest): (params: seq<(string, QueryValue)>)
    ensures |params| == 10
    ensures params[0] == ("apiKey", Str(if apiKey.Some? then apiKey.value else ""))
    ensures forall i, j :: 0 <= i < j < |params| ==> params[i].0 != params[j].0
  {
    [ ("apiKey", Str(apiKey.GetOr(""))),
      ("baseCurrencyAmount", body.baseCurrencyAmount),
      ("colorCode", body.colorCode),
      ("currencyCode", body.currencyCode),
      ("defaultCurrencyCode", body.defaultCurrencyCode),
      ("externalTransactionId", body.externalTransactionId),
      ("externalCustomerId", body.externalCustomerId),
      ("redirectURL", body.redirectURL),
      ("walletAddress", body.walletAddress),
      ("walletAddresses", body.walletAddresses) ]
  }

  lemma ApiKeyNameUnchanged()
    ensures EncodeUriComponent("apiKey") == "apiKey"
  {
    assert forall i :: 0 <= i < |"apiKey"| ==> IsUnreserved("apiKey"[i]);
    UnreservedUnchanged("apiKey");
  }

  /** A non-empty API key is the first parameter of the link, under its plain name. */
  lemma ApiKeyComesFirst(apiKey: string, body: LinkRequest)
    requires apiKey != ""
    ensures QueryPairs(LinkParams(Some(apiKey), body)) != []
    ensures QueryPairs(LinkParams(Some(apiKey), body))[0] == "apiKey=" + EncodeUriComponent(apiKey)
  {
    var params := LinkParams(Some(apiKey), body);
    FirstEntryFirstPair(params);
    ApiKeyNameUnchanged();
    assert QueryPair("apiKey", Str(apiKey)) == "apiKey" + "=" + EncodeUriComponent(apiKey);
    assert "apiKey" + "=" == "apiKey=";
  }

  /** A template-literal interpolation of an optional string. */
  function Interpolate(s: Option<string>): string {
    if s.Some? then s.value else "undefined"
  }

  /** The signed URL: the unsigned URL, then `&signature=` and the encoded signature. */
  function SignedUrl(url: string, signature: string): (r: string)
    ensures |r| > |url| && r[..|url|] == url
    ensures Split(r[|url|..], '&') == ["", "signature=" + EncodeUriComponent(signature)]
  {
    var suffix := "signature=" + EncodeUriComponent(signature);
    NoDelimiters(signature);
    assert '&' !in suffix by {
      assert suffix[..10] == "signature=";
      forall i | 0 <= i < |suffix| ensures suffix[i] != '&' {
        if i >= 10 { assert suffix[i] == EncodeUriComponent(signature)[i - 10]; }
      }
    }
    SplitAround([], suffix, '&');
    SplitWithoutSeparator(suffix, '&');
    assert [] + ['&'] + suffix == "&" + suffix;
    url + "&" + suffix
  }

  /**
   * The link the function returns: the staging URL, '?', the serialised
   * parameters, then the signature. `urlSearch(url)` is
   * `new URL(url).search`, absent where the URL constructor throws (a
   * string that is not an absolute URL, such as the "undefined?..." built
   * when the staging URL is unset); the function then returns no link.
   * `hmac(secret, search)` is the base64 HMAC-SHA256 of the search part.
   */
  method SignMoonpayLink(
    platform: Option<string>, secrets: StagingSecrets, body: LinkRequest,
    urlSearch: string -> Option<string>, hmac: (string, string) -> string)
    returns (urlWithSignature: Option<string>)
    ensures var web := platform == Some("web");
      var apiKey := if web then secrets.publishableKeyStagingWeb else secrets.apiKeyStaging;
      var secretKey := if web then secrets.secretKeyStagingWeb else secrets.secretKeyStaging;
      var url := Interpolate(secrets.urlStaging) + "?" + SerializedQuery(LinkParams(apiKey, body));
      urlWithSignature ==
        if urlSearch(url).None? then None
        else Some(SignedUrl(url, hmac(secretKey.GetOr(""), urlSearch(url).value)))
  {
    var apiKey, secretKey := SelectStagingKeys(platform, secrets);
    var query := SerializeQueryParams(LinkParams(apiKey, body));
    var url := Interpolate(secrets.urlStaging) + "?" + query;
    var search := urlSearch(url);
    if search.None? {
      return None;
    }
    var signature := hmac(secretKey.GetOr(""), search.value);
    urlWithSignature := Some(SignedUrl(url, signature));
  }
}
