/**
 * `build_url`: the search URL is the fixed base URL, a '?', and the
 * urlencoded parameters `where`, `q` and `tm`, in that order.
 * The percent-encoding of one key or value (`quote_plus`, which urlencode
 * applies to each key and to `str()` of each value) is a parameter.
 */
module SearchUrl {
  import opened Wrappers

  const SearchBaseUrl: string := "https://www.monster.com/jobs/search/"

  /** The recency window `get_jobs` leaves at build_url's default. */
  const DefaultTime: int := 1

  function DigitChar(d: nat): (c: char)
    requires d < 10
    ensures '0' <= c <= '9'
  {
    "0123456789"[d]
  }

  /** Decimal digits of a natural number, most significant first. */
  function Digits(n: nat): (r: string)
    ensures |r| >= 1
    ensures forall k :: 0 <= k < |r| ==> '0' <= r[k] <= '9'
  {
    if n < 10 then [DigitChar(n)]
    else Digits(n / 10) + [DigitChar(n % 10)]
  }

  /** `str()` of a Python int. */
  function Decimal(n: int): string {
    if n < 0 then "-" + Digits(-n) else Digits(n)
  }

  /** The dictionary build_url hands to urlencode, in insertion order. */
  function SearchParams(jobTitle: string, jobLocation: string, time: int): (params: seq<(string, string)>)
    ensures |params| == 3
    ensures params[0] == ("where", jobLocation) && params[1] == ("q", jobTitle) && params[2] == ("tm", Decimal(time))
    ensures forall i, j :: 0 <= i < j < |params| ==> params[i].0 != params[j].0
  {
    [("where", jobLocation), ("q", jobTitle), ("tm", Decimal(time))]
  }

  /** `sep.join(parts)` */
  function Join(parts: seq<string>, sep: char): string {
    if parts == [] then ""
    else if |parts| == 1 then parts[0]
    else parts[0] + [sep] + Join(parts[1..], sep)
  }

  /** `s.split(sep)`: the maximal pieces of `s` between occurrences of `sep`. */
  function Split(s: string, sep: char): (parts: seq<string>)
    ensures |parts| >= 1
  {
    if s == [] then [""]
    else
      var rest := Split(s[1..], sep);
      if s[0] == sep then [""] + rest else [[s[0]] + rest[0]] + rest[1..]
  }

  function EncodePair(quote: string -> string, kv: (string, string)): string {
    quote(kv.0) + "=" + quote(kv.1)
  }

  /** `urlencode(params)` with `quote` standing for quote_plus. */
  function UrlEncode(quote: string -> string, params: seq<(string, string)>): (query: string)
    ensures query == [] <==> params == []
  {
    Join(seq(|params|, i requires 0 <= i < |params| => EncodePair(quote, params[i])), '&')
  }

  function BuildUrl(quote: string -> string, jobTitle: string, jobLocation: string, time: int): (url: string)
    ensures |url| > |SearchBaseUrl| && url[..|SearchBaseUrl| + 1] == SearchBaseUrl + "?"
  {
    SearchBaseUrl + "?" + UrlEncode(quote, SearchParams(jobTitle, jobLocation, time))
  }

  /** Reads `key=value` pairs back out of a query string, decoding each side with `unquote`. */
  function DecodePairs(parts: seq<string>, unquote: string -> string): Option<seq<(string, string)>> {
    if parts == [] then Some([])
    else
      var sides := Split(parts[0], '=');
      if |sides| != 2 then None
      else match DecodePairs(parts[1..], unquote)
        case None => None
        case Some(rest) => Some([(unquote(sides[0]), unquote(sides[1]))] + rest)
  }

  /** The parameters of a search URL, when it has the search base URL as its prefix. */
  function ParseSearchUrl(url: string, unquote: string -> string): Option<seq<(string, string)>> {
    var prefix := SearchBaseUrl + "?";
    if |url| < |prefix| || url[..|prefix|] != prefix then None
    else DecodePairs(Split(url[|prefix|..], '&'), unquote)
  }

  /** `unquote` undoes `quote` on `s`, and the encoding of `s` holds neither delimiter. */
  predicate EncodesCleanly(quote: string -> string, unquote: string -> string, s: string) {
    unquote(quote(s)) == s && '&' !in quote(s) && '=' !in quote(s)
  }

  lemma {:induction false} SplitWithout(p: string, sep: char)
    requires sep !in p
    ensures Split(p, sep) == [p]
  {
    if p != [] {
      SplitWithout(p[1..], sep);
      assert [p[0]] + p[1..] == p;
    }
  }

  lemma {:induction false} SplitAfter(p: string, sep: char, rest: string)
    requires sep !in p
    ensures Split(p + [sep] + rest, sep) == [p] + Split(rest, sep)
  {
    var s := p + [sep] + rest;
    if p == [] {
      assert s[1..] == rest;
    } else {
      assert s[1..] == p[1..] + [sep] + rest;
      SplitAfter(p[1..], sep, rest);
      assert [p[0]] + p[1..] == p;
    }
  }

  /** Splitting a join gives back the parts, provided no part holds the separator. */
  lemma {:induction false} SplitJoin(parts: seq<string>, sep: char)
    requires |parts| >= 1
    requires forall k :: 0 <= k < |parts| ==> sep !in parts[k]
    ensures Split(Join(parts, sep), sep) == parts
  {
    if |parts| == 1 {
      SplitWithout(parts[0], sep);
    } else {
      SplitJoin(parts[1..], sep);
      SplitAfter(parts[0], sep, Join(parts[1..], sep));
      assert [parts[0]] + parts[1..] == parts;
    }
  }

  lemma {:induction false} DecodeEncodedPairs(quote: string -> string, unquote: string -> string, params: seq<(string, string)>)
    requires forall k :: 0 <= k < |params| ==>
      EncodesCleanly(quote, unquote, params[k].0) && EncodesCleanly(quote, unquote, params[k].1)
    ensures DecodePairs(seq(|params|, i requires 0 <= i < |params| => EncodePair(quote, params[i])), unquote) == Some(params)
  {
    var parts := seq(|params|, i requires 0 <= i < |params| => EncodePair(quote, params[i]));
    if params != [] {
      var kv := params[0];
      assert parts[0] == quote(kv.0) + ['='] + quote(kv.1);
      SplitAfter(quote(kv.0), '=', quote(kv.1));
      SplitWithout(quote(kv.1), '=');
      assert parts[1..] == seq(|params[1..]|, i requires 0 <= i < |params[1..]| => EncodePair(quote, params[1..][i]));
      DecodeEncodedPairs(quote, unquote, params[1..]);
      assert [kv] + params[1..] == params;
    }
  }

  /**
   * urlencode can be undone: splitting its output at '&' and decoding each
   * `key=value` piece gives back the parameters, in order, whenever each key
   * and value encodes cleanly.
   */
  lemma UrlEncodeRoundTrip(quote: string -> string, unquote: string -> string, params: seq<(string, string)>)
    requires params != []
    requires forall k :: 0 <= k < |params| ==>
      EncodesCleanly(quote, unquote, params[k].0) && EncodesCleanly(quote, unquote, params[k].1)
    ensures DecodePairs(Split(UrlEncode(quote, params), '&'), unquote) == Some(params)
  {
    var parts := seq(|params|, i requires 0 <= i < |params| => EncodePair(quote, params[i]));
    forall k | 0 <= k < |parts| ensures '&' !in parts[k] {
      assert parts[k] == quote(params[k].0) + "=" + quote(params[k].1);
    }
    SplitJoin(parts, '&');
    DecodeEncodedPairs(quote, unquote, params);
  }

  /**
   * The URL build_url produces carries exactly the three search parameters,
   * in order, whenever quote_plus is undone by `unquote` on them and leaves
   * no '&' or '=' in its output.
   */
  lemma BuildUrlRoundTrip(quote: string -> string, unquote: string -> string,
                          jobTitle: string, jobLocation: string, time: int)
    requires EncodesCleanly(quote, unquote, "where") && EncodesCleanly(quote, unquote, jobLocation)
    requires EncodesCleanly(quote, unquote, "q") && EncodesCleanly(quote, unquote, jobTitle)
    requires EncodesCleanly(quote, unquote, "tm") && EncodesCleanly(quote, unquote, Decimal(time))
    ensures ParseSearchUrl(BuildUrl(quote, jobTitle, jobLocation, time), unquote)
            == Some(SearchParams(jobTitle, jobLocation, time))
  {
    var params := SearchParams(jobTitle, jobLocation, time);
    var url := BuildUrl(quote, jobTitle, jobLocation, time);
    var prefix := SearchBaseUrl + "?";
    assert url[|prefix|..] == UrlEncode(quote, params);
    UrlEncodeRoundTrip(quote, unquote, params);
  }
}
