/**
 * The string helpers of the data fetcher (getstock.cc): whitespace
 * stripping of a `std::string` in place, the Quandl request URL, the
 * database file name, the lookup of a ticker's file among the database
 * files, and the libcurl write callback that collects the response body.
 *
 * A `std::string` that a helper changes through a pointer is a
 * `StringBuffer` object; a nullable `char const *` is an `Option`.
 */
module GetStock {
  import opened CText
  import opened Wrappers

  /** Position of the first non-space character, or `|s|` when there is none. */
  function FirstNonSpace(s: seq<char>): (i: nat)
    ensures i <= |s|
    ensures forall j :: 0 <= j < i ==> IsSpace(s[j])
    ensures i < |s| ==> !IsSpace(s[i])
  {
    if s == [] || !IsSpace(s[0]) then 0 else 1 + FirstNonSpace(s[1..])
  }

  /** One past the last non-space character, or 0 when there is none. */
  function LastNonSpaceEnd(s: seq<char>): (e: nat)
    ensures e <= |s|
    ensures forall j :: e <= j < |s| ==> IsSpace(s[j])
    ensures e > 0 ==> !IsSpace(s[e - 1])
  {
    if s == [] || !IsSpace(s[|s| - 1]) then |s| else LastNonSpaceEnd(s[..|s| - 1])
  }

  predicate AllSpace(s: seq<char>)
  {
    forall j :: 0 <= j < |s| ==> IsSpace(s[j])
  }

  /**
   * What `lstrip` leaves: an all-whitespace string is unchanged; otherwise
   * the suffix starting at the first non-space character.
   */
  function LStripped(s: seq<char>): (r: seq<char>)
    ensures AllSpace(s) ==> r == s
    ensures |r| <= |s|
    ensures !AllSpace(s) ==> |r| > 0 && !IsSpace(r[0]) && r == s[|s| - |r|..]
                             && AllSpace(s[..|s| - |r|])
  {
    var b := FirstNonSpace(s);
    if b == |s| then s else s[b..]
  }

  /**
   * What `rstrip` leaves: the longest prefix that is empty or ends in a
   * non-space character, so an all-whitespace string becomes empty.
   */
  function RStripped(s: seq<char>): (r: seq<char>)
    ensures |r| <= |s| && r == s[..|r|]
    ensures r == [] || !IsSpace(r[|r| - 1])
    ensures AllSpace(s[|r|..])
    ensures AllSpace(s) ==> r == []
  {
    s[..LastNonSpaceEnd(s)]
  }

  /** What `strip` leaves: `lstrip`, then `rstrip`. */
  function Stripped(s: seq<char>): seq<char>
  {
    RStripped(LStripped(s))
  }

  /**
   * `strip` cuts only whitespace, from both ends: what it leaves, `r`, is
   * the stretch of `s` that starts at its first non-space character `a`,
   * and only whitespace follows that stretch.
   */
  lemma StripCutsSpaceOnly(s: seq<char>) returns (a: nat, r: seq<char>)
    ensures a == FirstNonSpace(s) && r == Stripped(s)
    ensures a + |r| <= |s| && r == s[a..a + |r|] && AllSpace(s[a + |r|..])
  {
    if FirstNonSpace(s) == |s| {
      a, r := StripAllSpace(s);
    } else {
      a, r := StripSomeNonSpace(s);
    }
  }

  /** An all-whitespace string strips to nothing, the empty stretch at its end. */
  lemma StripAllSpace(s: seq<char>) returns (a: nat, r: seq<char>)
    requires FirstNonSpace(s) == |s|
    ensures a == FirstNonSpace(s) && r == Stripped(s)
    ensures a + |r| <= |s| && r == s[a..a + |r|] && AllSpace(s[a + |r|..])
  {
    assert AllSpace(s);
    a, r := |s|, [];
    assert s[a..a + |r|] == [];
  }

  /** Otherwise `lstrip` leaves the suffix from the first non-space character. */
  lemma StripSomeNonSpace(s: seq<char>) returns (a: nat, r: seq<char>)
    requires FirstNonSpace(s) < |s|
    ensures a == FirstNonSpace(s) && r == Stripped(s)
    ensures a + |r| <= |s| && r == s[a..a + |r|] && AllSpace(s[a + |r|..])
  {
    a := FirstNonSpace(s);
    var l := LStripped(s);
    LStripFrom(s);
    r := RStripped(l);
    PrefixOfSuffix(s, a, l, r);
  }

  /** With a non-space character, `lstrip` leaves the suffix from the first one. */
  lemma LStripFrom(s: seq<char>)
    requires FirstNonSpace(s) < |s|
    ensures LStripped(s) == s[FirstNonSpace(s)..]
  {
  }

  /**
   * A prefix `r` of the suffix `l` of `s` from `a`, followed in `l` only by
   * whitespace, is the stretch of `s` from `a`, followed in `s` only by
   * whitespace.
   */
  lemma PrefixOfSuffix(s: seq<char>, a: nat, l: seq<char>, r: seq<char>)
    requires a <= |s| && l == s[a..]
    requires |r| <= |l| && r == l[..|r|] && AllSpace(l[|r|..])
    ensures a + |r| <= |s| && r == s[a..a + |r|] && AllSpace(s[a + |r|..])
  {
    assert l[|r|..] == s[a + |r|..];
  }

  /** A stripped string is empty or begins and ends with a non-space character. */
  lemma StrippedIsTrimmed(s: seq<char>)
    ensures var t := Stripped(s);
            t == [] || (!IsSpace(t[0]) && !IsSpace(t[|t| - 1]))
    ensures AllSpace(s) <==> Stripped(s) == []
  {
    var u := LStripped(s);
    if !AllSpace(s) {
      assert !IsSpace(u[0]);
      assert LastNonSpaceEnd(u) > 0;
      assert Stripped(s)[0] == u[0];
    }
  }

  /** Stripping a stripped string changes nothing. */
  lemma StripIdempotent(s: seq<char>)
    ensures Stripped(Stripped(s)) == Stripped(s)
  {
    var t := Stripped(s);
    StrippedIsTrimmed(s);
    if t != [] {
      assert FirstNonSpace(t) == 0;
      assert LStripped(t) == t;
      assert LastNonSpaceEnd(t) == |t|;
    }
  }

  /** A `std::string` that the stripping helpers change in place. */
  class StringBuffer {
    var value: seq<char>

    constructor (s: seq<char>)
      ensures value == s
    {
      value := s;
    }
  }

  /**
   * `lstrip`: find the first non-space character; if there is one, rotate
   * it to the front and erase the rotated-away prefix from the end.
   */
  method LStrip(s: StringBuffer)
    modifies s
    ensures s.value == LStripped(old(s.value))
  {
    var v := s.value;
    var begin := 0;
    while begin < |v| && IsSpace(v[begin])
      invariant begin <= |v|
      invariant forall j :: 0 <= j < begin ==> IsSpace(v[j])
    {
      begin := begin + 1;
    }
    assert begin == FirstNonSpace(v);
    if begin != |v| {
      var rotated := v[begin..] + v[..begin];
      var newend := |v| - begin;
      s.value := rotated[..newend];
      assert s.value == v[begin..];
    }
  }

  /** `rstrip`: scan back from the end to the last non-space character and erase what follows. */
  method RStrip(s: StringBuffer)
    modifies s
    ensures s.value == RStripped(old(s.value))
  {
    var v := s.value;
    var end := |v|;
    while end > 0 && IsSpace(v[end - 1])
      invariant 0 <= end <= |v|
      invariant forall j :: end <= j < |v| ==> IsSpace(v[j])
    {
      end := end - 1;
    }
    assert end == LastNonSpaceEnd(v);
    s.value := v[..end];
  }

  /** `strip`: `lstrip` then `rstrip`. */
  method Strip(s: StringBuffer)
    modifies s
    ensures s.value == Stripped(old(s.value))
  {
    LStrip(s);
    RStrip(s);
  }

  /** 2^64: `size_t` arithmetic wraps modulo this. */
  const SizeModulus: nat := 0x1_0000_0000_0000_0000

  /**
   * `curl_callback`: appends `size * nmemb` bytes of `buf` (that product
   * taken in `size_t`) to the client string and reports that count.
   */
  method CurlCallback(buf: seq<char>, size: nat, nmemb: nat, cbuf: StringBuffer) returns (n: nat)
    requires size < SizeModulus && nmemb < SizeModulus
    requires (size * nmemb) % SizeModulus <= |buf|
    modifies cbuf
    ensures n == (size * nmemb) % SizeModulus
    ensures cbuf.value == old(cbuf.value) + buf[..n]
  {
    n := (size * nmemb) % SizeModulus;
    cbuf.value := cbuf.value + buf[..n];
  }

  /** The Quandl WIKI dataset endpoint that every URL starts with. */
  const Urlbase: seq<char> := "https://www.quandl.com/api/v3/datasets/WIKI/"

  /** The fixed part of a request URL: endpoint, ticker, format, order and key. */
  function UrlStem(ticker: seq<char>, token: seq<char>): seq<char>
  {
    Urlbase + ticker + ".csv?order=asc&api_key=" + token
  }

  /** The query field for a start date. */
  function StartField(date: seq<char>): seq<char>
  {
    "&start_date=" + CStr(date)
  }

  /** The query field for an end date. */
  function EndField(date: seq<char>): seq<char>
  {
    "&end_date=" + CStr(date)
  }

  /**
   * The optional query fields after `stem`: the start date if one is given,
   * then the end date if one is given, in that order. A date pointer
   * contributes the C string it points at.
   */
  function WithDates(stem: seq<char>, begin: Option<seq<char>>, end: Option<seq<char>>): (url: seq<char>)
    ensures |stem| <= |url| && url[..|stem|] == stem
    ensures begin.None? && end.None? ==> url == stem
    ensures begin.Some? ==>
              var field := StartField(begin.value);
              |stem| + |field| <= |url| && url[|stem|..|stem| + |field|] == field
    ensures end.Some? ==>
              var field := EndField(end.value);
              |field| <= |url| && url[|url| - |field|..] == field
  {
    var withBegin := if begin.Some? then stem + StartField(begin.value) else stem;
    assert (stem + withBegin[|stem|..])[..|stem|] == stem;
    assert withBegin == stem + withBegin[|stem|..];
    if end.Some? then
      var field := EndField(end.value);
      assert (withBegin + field)[..|withBegin|] == withBegin && (withBegin + field)[|withBegin|..] == field;
      assert (withBegin + field)[..|stem|] == withBegin[..|stem|];
      withBegin + field
    else withBegin
  }

  /** `make_url`: the request stem followed by the optional date fields. */
  function MakeUrl(ticker: seq<char>, token: seq<char>,
                   begin: Option<seq<char>>, end: Option<seq<char>>): (url: seq<char>)
    ensures |Urlbase| + |ticker| <= |url|
    ensures url[..|Urlbase|] == Urlbase && url[|Urlbase|..|Urlbase| + |ticker|] == ticker
    ensures var stem := UrlStem(ticker, token);
            |stem| <= |url| && url[..|stem|] == stem && (begin.None? && end.None? ==> url == stem)
  {
    var stem := UrlStem(ticker, token);
    assert stem[..|Urlbase|] == Urlbase && stem[|Urlbase|..|Urlbase| + |ticker|] == ticker;
    WithDates(stem, begin, end)
  }

  /**
   * Both dates given as proper C strings: the start date field comes right
   * after the stem, the end date field last, and nothing else is added.
   */
  lemma MakeUrlBothDates(ticker: seq<char>, token: seq<char>, b: seq<char>, e: seq<char>)
    requires '\0' !in b && '\0' !in e
    ensures MakeUrl(ticker, token, Some(b), Some(e))
         == UrlStem(ticker, token) + "&start_date=" + b + "&end_date=" + e
    ensures MakeUrl(ticker, token, Some(b), None) == UrlStem(ticker, token) + "&start_date=" + b
    ensures MakeUrl(ticker, token, None, Some(e)) == UrlStem(ticker, token) + "&end_date=" + e
  {
    CStrNoNul(b);
    CStrNoNul(e);
  }

  /** The directory part of a database file name: `dbroot`, with a '/' added unless it ends in one. */
  function DirPart(dbroot: seq<char>): (d: seq<char>)
    requires |dbroot| > 0
    ensures |d| > 0 && d[|d| - 1] == '/'
    ensures |d| == |dbroot| || |d| == |dbroot| + 1
    ensures d[..|dbroot|] == dbroot
  {
    if dbroot[|dbroot| - 1] != '/' then dbroot + "/" else dbroot
  }

  /** `TICKER.begin.end.csv`, or `TICKER.csv` unless both dates are given. */
  function BaseName(ticker: seq<char>, begin: Option<seq<char>>, end: Option<seq<char>>): seq<char>
  {
    if begin.Some? && end.Some? then ticker + "." + CStr(begin.value) + "." + CStr(end.value) + ".csv"
    else ticker + ".csv"
  }

  /** Every base name ends in ".csv". */
  lemma BaseNameEndsCsv(ticker: seq<char>, begin: Option<seq<char>>, end: Option<seq<char>>)
    ensures |BaseName(ticker, begin, end)| >= 4
    ensures BaseName(ticker, begin, end)[|BaseName(ticker, begin, end)| - 4..] == ".csv"
  {
    var b := BaseName(ticker, begin, end);
    if begin.Some? && end.Some? {
      var p := ticker + "." + CStr(begin.value) + "." + CStr(end.value);
      assert b == p + ".csv";
      assert b[|p|..] == ".csv";
    } else {
      assert b[|ticker|..] == ".csv";
    }
  }

  /** Prefixes and suffixes of a concatenation. */
  lemma ConcatParts<T>(d: seq<T>, b: seq<T>, k: nat)
    requires k <= |d| && |b| >= 4
    ensures (d + b)[..k] == d[..k]
    ensures (d + b)[|d|..] == b
    ensures (d + b)[|d + b| - 4..] == b[|b| - 4..]
  {
  }

  /**
   * `make_filename`: the directory (reading `dbroot.back()`, so `dbroot`
   * must not be empty), the ticker, both dates only when both are given,
   * and the `.csv` extension.
   */
  function MakeFilename(dbroot: seq<char>, ticker: seq<char>,
                        begin: Option<seq<char>>, end: Option<seq<char>>): (r: seq<char>)
    requires |dbroot| > 0
    ensures |r| > |dbroot| && r[..|dbroot|] == dbroot
    ensures r[|DirPart(dbroot)| - 1] == '/'
    ensures |r| >= |DirPart(dbroot)| + 4 && r[|r| - 4..] == ".csv"
    ensures r[|DirPart(dbroot)|..] == BaseName(ticker, begin, end)
    ensures !(begin.Some? && end.Some?) ==> r == DirPart(dbroot) + ticker + ".csv"
  {
    var d := DirPart(dbroot);
    var b := BaseName(ticker, begin, end);
    BaseNameEndsCsv(ticker, begin, end);
    ConcatParts(d, b, |dbroot|);
    d + b
  }

  /** With both dates given and no trailing slash: `dbroot/ticker.begin.end.csv`. */
  lemma MakeFilenameDated(dbroot: seq<char>, ticker: seq<char>, begin: seq<char>, end: seq<char>)
    requires |dbroot| > 0 && dbroot[|dbroot| - 1] != '/'
    requires '\0' !in begin && '\0' !in end
    ensures MakeFilename(dbroot, ticker, Some(begin), Some(end))
         == dbroot + "/" + ticker + "." + begin + "." + end + ".csv"
  {
    CStrNoNul(begin);
    CStrNoNul(end);
  }

  /** A '/' is added only when missing: a trailing slash on `dbroot` gives the same name. */
  lemma MakeFilenameSlashOnce(dbroot: seq<char>, ticker: seq<char>,
                              begin: Option<seq<char>>, end: Option<seq<char>>)
    requires |dbroot| > 0 && dbroot[|dbroot| - 1] != '/'
    ensures MakeFilename(dbroot + "/", ticker, begin, end) == MakeFilename(dbroot, ticker, begin, end)
  {
    assert DirPart(dbroot + "/") == dbroot + "/" == DirPart(dbroot);
  }

  /** The file name (a C string) contains the ticker, ignoring case. */
  predicate NameHasTicker(name: seq<char>, ticker: seq<char>)
  {
    ContainsCI(CStr(name), CStr(ticker))
  }

  /**
   * `find_file_by_ticker` with a file list supplied: the first file name
   * that contains the ticker, ignoring case, stripped of surrounding
   * whitespace; the empty string when no file name contains it
   * (`FindFileFirstMatch`, `FindFileNoMatch`).
   */
  function FindFileByTicker(ticker: seq<char>, files: seq<seq<char>>): seq<char>
  {
    if files == [] then []
    else if NameHasTicker(files[0], ticker) then Stripped(CStr(files[0]))
    else FindFileByTicker(ticker, files[1..])
  }

  /** The answer is the stripped name of the first file whose name contains the ticker. */
  lemma {:induction false} FindFileFirstMatch(ticker: seq<char>, files: seq<seq<char>>, i: nat)
    requires i < |files| && NameHasTicker(files[i], ticker)
    requires forall j :: 0 <= j < i ==> !NameHasTicker(files[j], ticker)
    ensures FindFileByTicker(ticker, files) == Stripped(CStr(files[i]))
  {
    if i > 0 {
      assert !NameHasTicker(files[0], ticker);
      assert forall j :: 0 <= j < i - 1 ==> files[1..][j] == files[j + 1];
      FindFileFirstMatch(ticker, files[1..], i - 1);
    }
  }

  /** With no file name containing the ticker, the answer is the empty string. */
  lemma {:induction false} FindFileNoMatch(ticker: seq<char>, files: seq<seq<char>>)
    requires forall j :: 0 <= j < |files| ==> !NameHasTicker(files[j], ticker)
    ensures FindFileByTicker(ticker, files) == []
  {
    if files != [] {
      assert forall j :: 0 <= j < |files| - 1 ==> files[1..][j] == files[j + 1];
      FindFileNoMatch(ticker, files[1..]);
    }
  }
}
