/**
  The list request both network revisions build for one page of the
  Lorem Picsum listing: `GET https://picsum.photos/v2/list?page=<page>&limit=30`,
  assembled with `URLComponents`. Pages below 1 are refused before anything
  is built.
 */
module PageRequest {
  import opened Common

  const Scheme: string := "https"
  const Host: string := "picsum.photos"
  const ListPath: string := "/v2/list"
  const Limit: string := "30"

  /** `Int.nextPageAfterFirstToStartLoadingFrom`: the first page a partial load asks for. */
  const NextPageAfterFirst: int := 2

  /** The page a full (first) load always asks for. */
  const FirstPage: int := 1

  datatype QueryItem = QueryItem(name: string, value: string)

  datatype Request = Request(httpMethod: string, scheme: string, host: string,
                             path: string, query: seq<QueryItem>)

  predicate IsDigit(c: char) { '0' <= c <= '9' }

  function Digit(d: int): (c: char)
    requires 0 <= d < 10
    ensures IsDigit(c) && c as int - '0' as int == d
  {
    "0123456789"[d]
  }

  /** `"\(n)"` for a non-negative number: decimal digits, no leading zero. */
  function DecimalString(n: nat): (s: string)
    ensures s != [] && AllDigits(s)
    ensures |s| > 1 ==> s[0] != '0'
  {
    if n < 10 then [Digit(n)] else DecimalString(n / 10) + [Digit(n % 10)]
  }

  predicate AllDigits(s: string) {
    forall i :: 0 <= i < |s| ==> IsDigit(s[i])
  }

  function DigitValue(c: char): (d: nat)
    requires IsDigit(c)
    ensures d < 10
  {
    c as int - '0' as int
  }

  /** Reads a string of decimal digits back as a number. */
  function ParseDecimal(s: string): nat
    requires AllDigits(s)
  {
    if s == [] then 0
    else ParseDecimal(s[..|s| - 1]) * 10 + DigitValue(s[|s| - 1])
  }

  /** The page number written into the query can be read back unchanged. */
  lemma {:induction false} ParseDecimalString(n: nat)
    ensures ParseDecimal(DecimalString(n)) == n
  {
    if n >= 10 {
      var s := DecimalString(n);
      assert s[..|s| - 1] == DecimalString(n / 10);
      ParseDecimalString(n / 10);
    }
  }

  lemma DecimalStringInjective(m: nat, n: nat)
    ensures DecimalString(m) == DecimalString(n) <==> m == n
  {
    ParseDecimalString(m);
    ParseDecimalString(n);
  }

  /**
    The request for `page`, or nothing for a page below 1 (the `guard page >= 1`
    that returns without calling the completion).
   */
  function ForPage(page: int): (r: Option<Request>)
    ensures r.Some? <==> page >= 1
    ensures r.Some? ==> && r.value.httpMethod == "GET"
                        && r.value.scheme == Scheme && r.value.host == Host
                        && r.value.path == ListPath
                        && |r.value.query| == 2
                        && r.value.query[0].name == "page"
                        && AllDigits(r.value.query[0].value)
                        && ParseDecimal(r.value.query[0].value) == page
                        && r.value.query[1] == QueryItem("limit", Limit)
  {
    if page < 1 then None
    else
      ParseDecimalString(page);
      Some(Request("GET", Scheme, Host, ListPath,
                   [QueryItem("page", DecimalString(page)), QueryItem("limit", Limit)]))
  }

  function QueryString(items: seq<QueryItem>): string
    decreases |items|
  {
    if items == [] then []
    else if |items| == 1 then items[0].name + "=" + items[0].value
    else items[0].name + "=" + items[0].value + "&" + QueryString(items[1..])
  }

  /** The absolute URL `URLComponents` renders for a request. */
  function UrlString(r: Request): string {
    r.scheme + "://" + r.host + r.path + "?" + QueryString(r.query)
  }

  /** A two-item query renders as `a=x&b=y`. */
  lemma QueryStringOfTwo(a: QueryItem, b: QueryItem)
    ensures QueryString([a, b]) == a.name + "=" + a.value + "&" + (b.name + "=" + b.value)
  {
    assert [a, b][1..] == [b];
  }

  lemma UrlPrefix()
    ensures Scheme + "://" + Host + ListPath + "?" == "https://picsum.photos/v2/list?"
  {
  }

  lemma JoinPageQuery(d: string)
    ensures "https://picsum.photos/v2/list?" + ("page" + "=" + d + "&" + ("limit" + "=" + Limit))
            == "https://picsum.photos/v2/list?page=" + d + "&limit=30"
  {
    var base := "https://picsum.photos/v2/list?";
    assert "page" + "=" == "page=";
    assert "&" + ("limit" + "=" + Limit) == "&limit=30";
    assert base + "page=" == "https://picsum.photos/v2/list?page=";
  }

  /** The rendered URL of a page request, spelled out. */
  lemma ForPageUrl(page: int)
    requires page >= 1
    ensures UrlString(ForPage(page).value)
            == "https://picsum.photos/v2/list?page=" + DecimalString(page) + "&limit=30"
  {
    var d := DecimalString(page);
    var r := ForPage(page).value;
    assert r.query == [QueryItem("page", d), QueryItem("limit", Limit)];
    QueryStringOfTwo(QueryItem("page", d), QueryItem("limit", Limit));
    UrlPrefix();
    JoinPageQuery(d);
  }
}
