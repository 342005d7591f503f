/**
 * The string work of `Tapper.get_tg_web_data`: the `tgWebAppData`
 * parameter is cut out of the web-view URL, URL-decoded twice, split into
 * `&`-separated fields read by position, and the init-data header value is
 * rebuilt from them with a fixed key order.
 *
 * `urllib.parse.unquote` and `quote` are parameters; the lemma about
 * re-reading the header assumes only that `quote` escapes `&` and `=`,
 * which it does with its default safe set.
 */
module InitData {
  import opened Wrappers
  import opened Text

  const DataMarker: string := "tgWebAppData="
  const VersionMarker: string := "&tgWebAppVersion"

  /** The keys of the rebuilt header value, in the order written. */
  const Keys: seq<string> := ["user", "chat_instance", "chat_type", "start_param", "auth_date", "hash"]

  /** Index of `start_param` among the fields. */
  const StartParamField: nat := 3

  /** What `get_tg_web_data` hands back to `run`. */
  datatype WebData =
    | Revoked            // `InvalidSession`: connecting raised Unauthorized, UserDeactivated or AuthKeyUnregistered
    | NoData             // any other error: logged, 3 s sleep, Python `None`
    | Data(initData: string)

  /** The rebuilt header value, and the start parameter stored on the worker. */
  datatype Rebuilt = Rebuilt(initData: string, startParam: string)

  /**
   * `part.split('=')[1]` for the first `n` parts: the text between the
   * first and second `=` of each; `None` where a part has no `=`
   * (Python's `IndexError`).
   */
  function FieldValues(parts: seq<string>, n: nat): (r: Option<seq<string>>)
    requires n <= |parts|
    ensures r.Some? <==> forall k :: 0 <= k < n ==> '=' in parts[k]
    ensures r.Some? ==> |r.value| == n
    ensures r.Some? ==>
      forall k :: 0 <= k < n ==> |Split(parts[k], '=')| >= 2 && r.value[k] == Split(parts[k], '=')[1]
  {
    if n == 0 then Some([])
    else
      var kv := Split(parts[n - 1], '=');
      match FieldValues(parts, n - 1)
      case None => None
      case Some(front) =>
        CountZero(parts[n - 1], '=');
        if |kv| >= 2 then Some(front + [kv[1]]) else None
  }

  /**
   * The header value: `key=value` for each key in `Keys` order, joined with
   * `&`, which is the string the source's f-string spells out.
   */
  function InitDataString(values: seq<string>): string
    requires |values| == |Keys|
  {
    Join(seq(|Keys|, k requires 0 <= k < |Keys| => Keys[k] + "=" + values[k]), '&')
  }

  /** The `&`-separated parts of the twice URL-decoded `tgWebAppData` parameter. */
  function DecodedParts(authUrl: string, unquote: string -> string): seq<string>
    requires Contains(authUrl, DataMarker)
  {
    Split(unquote(unquote(Before(Second(authUrl, DataMarker).value, VersionMarker))), '&')
  }

  /**
   * Lines 124-138 of `get_tg_web_data`: `None` exactly where one of the
   * indexing or splitting steps raises (no `tgWebAppData=` in the URL, fewer
   * than six fields, one of the first six fields without `=`).
   */
  function RebuildInitData(authUrl: string, unquote: string -> string, quote: string -> string): (r: Option<Rebuilt>)
    ensures !Contains(authUrl, DataMarker) ==> r.None?
    ensures Contains(authUrl, DataMarker) ==>
      var parts := DecodedParts(authUrl, unquote);
      (r.Some? <==> |parts| >= 6 && forall k :: 0 <= k < 6 ==> '=' in parts[k])
    ensures r.Some? ==>
      var parts := DecodedParts(authUrl, unquote);
      |parts| >= 6 && |Split(parts[StartParamField], '=')| >= 2 &&
      r.value.startParam == Split(parts[StartParamField], '=')[1]
  {
    match Second(authUrl, DataMarker)
    case None => None
    case Some(raw) =>
      var parts := Split(unquote(unquote(Before(raw, VersionMarker))), '&');
      if |parts| < 6 then None
      else
        match FieldValues(parts, 6)
        case None => None
        case Some(v) =>
          Some(Rebuilt(InitDataString([quote(v[0])] + v[1..]), v[StartParamField]))
  }

  /** The `key=value` fields of a header value, split as the backend reads them. */
  function Fields(initData: string): seq<seq<string>>
  {
    var parts := Split(initData, '&');
    seq(|parts|, k requires 0 <= k < |parts| => Split(parts[k], '='))
  }

  /** One `key=value` field of separator-free parts holds no `&` and splits back at its `=`. */
  lemma PairField(key: string, value: string)
    requires '&' !in key && '=' !in key && '&' !in value && '=' !in value
    ensures '&' !in key + "=" + value
    ensures Split(key + "=" + value, '=') == [key, value]
  {
    PairJoin(key, value);
    SplitJoin([key, value], '=');
  }

  /** `key=value` is the two-field join at `=`. */
  lemma PairJoin(key: string, value: string)
    ensures key + "=" + value == Join([key, value], '=')
  {
    assert [key, value][1..] == [value];
  }

  /** A header built from separator-free values reads back as its keys and values. */
  lemma HeaderFields(values: seq<string>)
    requires |values| == |Keys|
    requires forall k :: 0 <= k < |values| ==> '&' !in values[k] && '=' !in values[k]
    ensures Fields(InitDataString(values)) == seq(|Keys|, k requires 0 <= k < |Keys| => [Keys[k], values[k]])
  {
    var pairs := seq(|Keys|, k requires 0 <= k < |Keys| => Keys[k] + "=" + values[k]);
    forall k | 0 <= k < |Keys| ensures '&' !in pairs[k] && Split(pairs[k], '=') == [Keys[k], values[k]] {
      assert '&' !in Keys[k] && '=' !in Keys[k];
      PairField(Keys[k], values[k]);
    }
    SplitJoin(pairs, '&');
  }

  /**
   * The six values the rebuilt header is made of: the quoted `user` value,
   * then the values of the other five decoded fields by position. None
   * holds `&` or `=`, and the fourth is the start parameter.
   */
  lemma RebuiltValues(authUrl: string, unquote: string -> string, quote: string -> string) returns (values: seq<string>)
    requires forall s :: '&' !in quote(s) && '=' !in quote(s)
    requires RebuildInitData(authUrl, unquote, quote).Some?
    ensures |values| == |Keys|
    ensures forall k :: 0 <= k < |values| ==> '&' !in values[k] && '=' !in values[k]
    ensures RebuildInitData(authUrl, unquote, quote).value == Rebuilt(InitDataString(values), values[StartParamField])
    ensures var parts := DecodedParts(authUrl, unquote);
      |parts| >= 6 && (forall k :: 0 <= k < 6 ==> |Split(parts[k], '=')| >= 2) &&
      values[0] == quote(Split(parts[0], '=')[1]) &&
      forall k :: 1 <= k < 6 ==> values[k] == Split(parts[k], '=')[1]
  {
    var raw := Second(authUrl, DataMarker).value;
    var parts := Split(unquote(unquote(Before(raw, VersionMarker))), '&');
    var v := FieldValues(parts, 6).value;
    values := [quote(v[0])] + v[1..];
    // Each value lies inside one `&`-field and after its first `=`, so it holds neither separator.
    forall k | 1 <= k < 6 ensures '&' !in values[k] && '=' !in values[k] {
      assert values[k] == v[k] == Split(parts[k], '=')[1];
      SplitKeepsOut(parts[k], '=', '&');
    }
  }

  /**
   * Reading the rebuilt header back gives six fields with the keys `user,
   * chat_instance, chat_type, start_param, auth_date, hash` in that order,
   * each with exactly one `=`. The `user` value is the quoted value of the
   * first decoded field; each other value is the value of the decoded field
   * at the same position, and the `start_param` value is the one stored on
   * the worker.
   */
  lemma RebuiltFieldsInOrder(authUrl: string, unquote: string -> string, quote: string -> string)
    requires forall s :: '&' !in quote(s) && '=' !in quote(s)
    requires RebuildInitData(authUrl, unquote, quote).Some?
    ensures var r := RebuildInitData(authUrl, unquote, quote).value;
      var f := Fields(r.initData);
      |f| == |Keys| &&
      (forall k :: 0 <= k < |Keys| ==> |f[k]| == 2 && f[k][0] == Keys[k]) &&
      f[StartParamField][1] == r.startParam
    ensures var f := Fields(RebuildInitData(authUrl, unquote, quote).value.initData);
      var parts := DecodedParts(authUrl, unquote);
      |f| == 6 && |parts| >= 6 && (forall k :: 0 <= k < 6 ==> |f[k]| == 2 && |Split(parts[k], '=')| >= 2) &&
      f[0][1] == quote(Split(parts[0], '=')[1]) &&
      forall k :: 1 <= k < 6 ==> f[k][1] == Split(parts[k], '=')[1]
  {
    var values := RebuiltValues(authUrl, unquote, quote);
    HeaderFields(values);
  }
}
