/** The request helper of the web pages (`get-response.js`): how
    `getResponse(url, qs_params, qs_type)` forms the method and the request
    target. The `XMLHttpRequest` itself is not modelled. */
module Request {
  import opened Base
  import opened Text

  /** A string JavaScript treats as true: any but `''`. */
  type NonEmptyString = s: string | s != [] witness "?"

  /** The `qs_params` argument: a falsy value (`undefined`, `null`, `''`, ...),
      a plain object with its entries in enumeration order, or a non-empty
      string, whose entries are its indices and characters. Values are
      taken as already converted to text. */
  datatype QsParams = Falsy | Object(entries: seq<(string, string)>) | Str(s: NonEmptyString)

  /** `Object.entries(params)`. */
  function Entries(p: QsParams): (r: seq<(string, string)>)
    requires !p.Falsy?
    ensures p.Object? ==> r == p.entries
    ensures p.Str? ==> |r| == |p.s| && forall i :: 0 <= i < |r| ==> r[i] == (NatToString(i), [p.s[i]])
  {
    match p
    case Object(entries) => entries
    case Str(s) => seq(|s|, i requires 0 <= i < |s| => (NatToString(i), [s[i]]))
  }

  /** `` `${d[0]}=${d[1]}` ``: no percent-encoding. */
  function Render(e: (string, string)): string {
    e.0 + "=" + e.1
  }

  /** `buildQueryString(params)`: the rendered entries joined by `&`. */
  function BuildQueryString(entries: seq<(string, string)>): string {
    Join(seq(|entries|, i requires 0 <= i < |entries| => Render(entries[i])), "&")
  }

  /** When neither keys nor values contain `&`, splitting the query string
      at `&` gives back exactly one rendered entry per entry, in order; so
      `n` entries are joined by `n - 1` separators. */
  lemma QueryStringSplits(entries: seq<(string, string)>)
    requires |entries| >= 1
    requires forall i :: 0 <= i < |entries| ==> !Contains(Render(entries[i]), "&")
    ensures Split(BuildQueryString(entries), "&") == seq(|entries|, i requires 0 <= i < |entries| => Render(entries[i]))
    ensures |Split(BuildQueryString(entries), "&")| == |entries|
  {
    var parts := seq(|entries|, i requires 0 <= i < |entries| => Render(entries[i]));
    assert "&" == ['&'];
    SplitJoin(parts, '&');
  }

  /** `qs_params ? '?' + buildQueryString(qs_params) : ''`. */
  function QueryString(p: QsParams): (qs: string)
    ensures p.Falsy? ==> qs == ""
    ensures !p.Falsy? ==> qs == "?" + BuildQueryString(Entries(p))
  {
    if p.Falsy? then "" else "?" + BuildQueryString(Entries(p))
  }

  /** `qs_type ? qs_type : 'GET'`; `None` and `''` are the falsy types. */
  function Method(qsType: Option<string>): (m: string)
    ensures qsType.None? || qsType == Some("") ==> m == "GET"
    ensures qsType.Some? && qsType.value != "" ==> m == qsType.value
  {
    if qsType.Some? && qsType.value != "" then qsType.value else "GET"
  }

  /** The method and the target passed to `req.open`. */
  function Open(url: string, p: QsParams, qsType: Option<string>): (r: (string, string))
    ensures r.0 == Method(qsType)
    ensures r.1 == url + QueryString(p)
    ensures p.Falsy? ==> r.1 == url
    ensures !p.Falsy? ==> StartsWith(r.1, url) && r.1[|url|] == '?'
  {
    (Method(qsType), url + QueryString(p))
  }

  /** The request target parses back: split at `?` it is the URL alone for
      falsy parameters, and otherwise the URL and the query string, which
      splits at `&` into the rendered entries. Holds when the URL has no
      `?` and no entry text holds `&` or `?`. */
  lemma OpenParsesBack(url: string, p: QsParams, qsType: Option<string>)
    requires !Contains(url, "?")
    requires !p.Falsy? ==>
               |Entries(p)| >= 1
               && forall k :: 0 <= k < |Entries(p)| ==>
                    !Contains(Render(Entries(p)[k]), "&") && !Contains(Render(Entries(p)[k]), "?")
    ensures p.Falsy? ==> Split(Open(url, p, qsType).1, "?") == [url]
    ensures !p.Falsy? ==>
              Split(Open(url, p, qsType).1, "?") == [url, BuildQueryString(Entries(p))]
              && Split(BuildQueryString(Entries(p)), "&")
                 == seq(|Entries(p)|, i requires 0 <= i < |Entries(p)| => Render(Entries(p)[i]))
  {
    var target := Open(url, p, qsType).1;
    if p.Falsy? {
      assert target == url;
      var parts := Split(url, "?");
      assert |parts| == 1;
      assert Join(parts, "?") == parts[0];
    } else {
      QueryStringSplits(Entries(p));
      QueryLacks(Entries(p));
      var qs := BuildQueryString(Entries(p));
      TargetSplits(url, qs);
      assert target == url + ("?" + qs) == url + "?" + qs;
    }
  }

  lemma QueryLacks(entries: seq<(string, string)>)
    requires forall k :: 0 <= k < |entries| ==> !Contains(Render(entries[k]), "?")
    ensures !Contains(BuildQueryString(entries), "?")
  {
    var rendered := seq(|entries|, i requires 0 <= i < |entries| => Render(entries[i]));
    assert "?" == ['?'];
    LacksChar("&", '?');
    JoinLacks(rendered, "&", '?');
  }

  lemma TargetSplits(url: string, qs: string)
    requires !Contains(url, "?") && !Contains(qs, "?")
    ensures Split(url + "?" + qs, "?") == [url, qs]
  {
    assert "?" == ['?'];
    JoinCons(url, [qs], "?");
    assert [url] + [qs] == [url, qs];
    assert Join([qs], "?") == qs;
    SplitJoin([url, qs], '?');
  }

  /** The dashboard's status request and an empty object, which still
      gives a bare `?`. */
  lemma OpenExamples()
    ensures Open("/_systemd_status", Object([("service", "*")]), None) == ("GET", "/_systemd_status?service=*")
    ensures Open("/_storage", Object([]), None) == ("GET", "/_storage?")
    ensures Open("/_storage", Falsy, Some("POST")) == ("POST", "/_storage")
    ensures Open("/_storage", Falsy, Some("")) == ("GET", "/_storage")
  {
    var one := [("service", "*")];
    assert Render(one[0]) == "service=*";
    assert seq(|one|, i requires 0 <= i < |one| => Render(one[i])) == ["service=*"];
    assert BuildQueryString(one) == "service=*";
    assert QueryString(Object(one)) == "?service=*";
    assert "/_systemd_status" + "?service=*" == "/_systemd_status?service=*";
    var none: seq<(string, string)> := [];
    assert seq(|none|, i requires 0 <= i < |none| => Render(none[i])) == [];
    assert QueryString(Object(none)) == "?";
    assert "/_storage" + "?" == "/_storage?";
  }
}
