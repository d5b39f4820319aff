/**
 * The text helpers of the optimiser (main.cc): `ticker_from_filename` and
 * `indexOf`, the case-insensitive lookup of a field in a comma-separated
 * CSV header line.
 */
module CsvText {
  import opened CText
  import opened GetStock
  import opened Wrappers

  /** `DATA_SEP`, the CSV field separator. */
  const Sep: char := ','

  /**
   * `strchrnul(s + b, c)` on a C string: the first position at or after `b`
   * holding `c`, or the position of the terminator, `|s|`.
   */
  function Find(s: seq<char>, c: char, b: nat): (k: nat)
    requires b <= |s|
    ensures b <= k <= |s|
    ensures k < |s| ==> s[k] == c
    decreases |s| - b
  {
    if b == |s| || s[b] == c then b else Find(s, c, b + 1)
  }

  /** `Find` returns the first occurrence at or after `b`, or the end. */
  lemma {:induction false} FindAt(s: seq<char>, c: char, b: nat, k: nat)
    requires b <= k <= |s|
    requires forall j :: b <= j < k ==> s[j] != c
    requires k < |s| ==> s[k] == c
    ensures Find(s, c, b) == k
    decreases k - b
  {
    if b < k {
      FindAt(s, c, b + 1, k);
    }
  }

  /*
   * ticker_from_filename
   */

  /** The part of a file name before its first '.', or all of it. */
  function TickerPart(name: seq<char>): seq<char>
  {
    name[..Find(name, '.', 0)]
  }

  /**
   * `ticker_from_filename`: copy the C string into a 256-byte buffer (so it
   * must be shorter than 256 characters), cut it at the first '.', and
   * upper-case what is left.
   */
  method TickerFromFilename(filename: seq<char>) returns (ticker: seq<char>)
    requires |CStr(filename)| < 256
    ensures ticker == UpperString(TickerPart(CStr(filename)))
    ensures '.' !in ticker && |ticker| <= |CStr(filename)|
    ensures EqualCI(ticker, CStr(filename)[..|ticker|])
  {
    var name := CStr(filename);
    var buf := name + ['\0'];
    var pd := Find(name, '.', 0);
    FindSkipsAll(name, '.', 0);
    buf := buf[pd := '\0'];
    assert CStr(buf) == name[..pd] by {
      CStrNoNul(name[..pd]);
      assert buf == name[..pd] + ['\0'] + buf[pd + 1..];
      CStrPrefix(name[..pd], buf[pd + 1..]);
    }
    ticker := UpperCStr(buf);
  }

  /** A C string followed by a NUL: whatever comes after the NUL is not part of it. */
  lemma {:induction false} CStrPrefix(s: seq<char>, rest: seq<char>)
    requires '\0' !in s
    ensures CStr(s + ['\0'] + rest) == s
  {
    if s != [] {
      assert (s + ['\0'] + rest)[1..] == s[1..] + ['\0'] + rest;
      CStrPrefix(s[1..], rest);
    }
  }

  /**
   * The ticker survives the round trip through a database file name: the
   * part before the first '.' of the base name that `make_filename` builds
   * for a ticker without '.' is that ticker.
   */
  lemma TickerRoundTrip(ticker: seq<char>, begin: Option<seq<char>>, end: Option<seq<char>>)
    requires '.' !in ticker
    ensures TickerPart(BaseName(ticker, begin, end)) == ticker
  {
    var name := BaseName(ticker, begin, end);
    assert name[..|ticker|] == ticker && name[|ticker|] == '.';
    FindAt(name, '.', 0, |ticker|);
  }

  /**
   * The round trip through `ticker_from_filename`: given the base name that
   * `make_filename` builds for a ticker without '.' or NUL, it returns that
   * ticker upper-cased (the value `TickerFromFilename` ensures).
   */
  lemma TickerFromBaseName(ticker: seq<char>, begin: Option<seq<char>>, end: Option<seq<char>>)
    requires '.' !in ticker && '\0' !in ticker
    ensures UpperString(TickerPart(CStr(BaseName(ticker, begin, end)))) == UpperString(ticker)
  {
    var name := BaseName(ticker, begin, end);
    if begin.Some? && end.Some? {
      var b, e := CStr(begin.value), CStr(end.value);
      assert name == ticker + "." + b + "." + e + ".csv";
      assert '\0' !in name by {
        forall j | 0 <= j < |name| ensures name[j] != '\0' {
          if j < |ticker| { assert name[j] == ticker[j]; }
          else if j == |ticker| { }
          else if j < |ticker| + 1 + |b| { assert name[j] == b[j - |ticker| - 1]; }
          else if j == |ticker| + 1 + |b| { }
          else if j < |ticker| + 2 + |b| + |e| { assert name[j] == e[j - |ticker| - 2 - |b|]; }
          else { assert name[j] == ".csv"[j - |ticker| - 2 - |b| - |e|]; }
        }
      }
    } else {
      assert name == ticker + ".csv";
      assert '\0' !in name by {
        forall j | 0 <= j < |name| ensures name[j] != '\0' {
          if j < |ticker| { assert name[j] == ticker[j]; }
          else { assert name[j] == ".csv"[j - |ticker|]; }
        }
      }
    }
    CStrNoNul(name);
    TickerRoundTrip(ticker, begin, end);
  }

  /*
   * indexOf
   */

  /** The fields of `s` from position `b` on: the text between separators. */
  function TokensFrom(s: seq<char>, b: nat): (toks: seq<seq<char>>)
    requires b <= |s|
    ensures |toks| > 0
    decreases |s| - b
  {
    var e := Find(s, Sep, b);
    if e == |s| then [s[b..]] else [s[b..e]] + TokensFrom(s, e + 1)
  }

  /** The first field from `b` on, followed by the fields after its separator, if any. */
  lemma TokensFromUnfold(s: seq<char>, b: nat)
    requires b <= |s|
    ensures var e := Find(s, Sep, b);
            && (e == |s| ==> TokensFrom(s, b) == [s[b..e]])
            && (e < |s| ==> TokensFrom(s, b) == [s[b..e]] + TokensFrom(s, e + 1))
    ensures b == |s| ==> TokensFrom(s, b) == [[]]
  {
    if Find(s, Sep, b) == |s| {
      TokensFromLast(s, b);
      assert b == |s| ==> s[b..Find(s, Sep, b)] == [];
    } else {
      TokensFromNext(s, b);
    }
  }

  /** No separator from `b` on: the rest of the text is the last field. */
  lemma TokensFromLast(s: seq<char>, b: nat)
    requires b <= |s| && Find(s, Sep, b) == |s|
    ensures TokensFrom(s, b) == [s[b..Find(s, Sep, b)]]
  {
    assert s[b..] == s[b..|s|];
  }

  /** A separator at `e`: the field before it, then the fields after it. */
  lemma TokensFromNext(s: seq<char>, b: nat)
    requires b <= |s| && Find(s, Sep, b) < |s|
    ensures TokensFrom(s, b) == [s[b..Find(s, Sep, b)]] + TokensFrom(s, Find(s, Sep, b) + 1)
  {
  }

  /** All the fields of a line. */
  function Split(s: seq<char>): seq<seq<char>>
  {
    TokensFrom(s, 0)
  }

  /** The fields put back together with the separator between them. */
  function Join(toks: seq<seq<char>>): seq<char>
    requires |toks| > 0
  {
    if |toks| == 1 then toks[0] else toks[0] + [Sep] + Join(toks[1..])
  }

  lemma {:induction false} TokensFromJoin(s: seq<char>, b: nat)
    requires b <= |s|
    ensures Join(TokensFrom(s, b)) == s[b..]
    decreases |s| - b
  {
    var e := Find(s, Sep, b);
    if e < |s| {
      TokensFromNext(s, b);
      TokensFromJoin(s, e + 1);
      JoinCons(s[b..e], TokensFrom(s, e + 1));
      SplitAround(s, b, e);
    } else {
      TokensFromLast(s, b);
      assert s[b..] == s[b..e];
    }
  }

  lemma {:induction false} TokensFromSepFree(s: seq<char>, b: nat)
    requires b <= |s|
    ensures SepFree(TokensFrom(s, b))
    decreases |s| - b
  {
    var e := Find(s, Sep, b);
    FindSkips(s, b);
    if e < |s| {
      TokensFromNext(s, b);
      TokensFromSepFree(s, e + 1);
      SepFreeCons(s[b..e], TokensFrom(s, e + 1));
    } else {
      TokensFromLast(s, b);
    }
  }

  /** The text `Find` passes over holds no separator. */
  lemma FindSkips(s: seq<char>, b: nat)
    requires b <= |s|
    ensures Sep !in s[b..Find(s, Sep, b)]
  {
    FindSkipsAll(s, Sep, b);
  }

  /** `Find` stops at the first occurrence: none of the text before it holds `c`. */
  lemma {:induction false} FindSkipsAll(s: seq<char>, c: char, b: nat)
    requires b <= |s|
    ensures forall j :: b <= j < Find(s, c, b) ==> s[j] != c
    decreases |s| - b
  {
    if b < |s| && s[b] != c {
      FindSkipsAll(s, c, b + 1);
    }
  }

  /** A separator-free field in front of separator-free fields. */
  lemma SepFreeCons(t: seq<char>, rest: seq<seq<char>>)
    requires Sep !in t && SepFree(rest)
    ensures SepFree([t] + rest)
  {
    forall i | 0 <= i < |[t] + rest| ensures Sep !in ([t] + rest)[i] {
      if i > 0 {
        assert ([t] + rest)[i] == rest[i - 1];
      }
    }
  }

  /** A field in front of at least one more field is followed by a separator. */
  lemma JoinCons(t: seq<char>, rest: seq<seq<char>>)
    requires |rest| > 0
    ensures Join([t] + rest) == t + [Sep] + Join(rest)
  {
    assert ([t] + rest)[1..] == rest;
  }

  /** A sequence cut around position `e`. */
  lemma SplitAround<T>(s: seq<T>, b: nat, e: nat)
    requires b <= e < |s|
    ensures s[b..] == s[b..e] + [s[e]] + s[e + 1..]
  {
  }

  /** Joining the fields of a line gives the line back; no field holds a separator. */
  lemma SplitJoin(s: seq<char>)
    ensures Join(Split(s)) == s
    ensures SepFree(Split(s))
  {
    TokensFromJoin(s, 0);
    TokensFromSepFree(s, 0);
  }

  /** No field holds a separator. */
  predicate SepFree(toks: seq<seq<char>>)
  {
    forall i :: 0 <= i < |toks| ==> Sep !in toks[i]
  }

  lemma {:induction false} JoinTokensFrom(p: seq<char>, toks: seq<seq<char>>)
    requires |toks| > 0 && SepFree(toks)
    ensures TokensFrom(p + Join(toks), |p|) == toks
    decreases |toks|
  {
    var t := toks[0];
    if |toks| == 1 {
      assert Join(toks) == t;
      TokenLast(p, t);
      assert [t] == toks;
    } else {
      var rest := toks[1..];
      assert SepFree(rest) by {
        forall i | 0 <= i < |rest| ensures Sep !in rest[i] {
          assert rest[i] == toks[i + 1];
        }
      }
      var p' := p + t + [Sep];
      var s := p' + Join(rest);
      assert p + Join(toks) == s by {
        assert Join(toks) == t + [Sep] + Join(rest);
      }
      assert TokensFrom(s, |p|) == [t] + TokensFrom(s, |p'|) by {
        TokenThenSep(p, t, Join(rest));
      }
      assert TokensFrom(s, |p'|) == rest by {
        JoinTokensFrom(p', rest);
      }
      assert toks == [t] + rest;
    }
  }

  /** The last field: a separator-free `t` at the end of the text. */
  lemma TokenLast(p: seq<char>, t: seq<char>)
    requires Sep !in t
    ensures TokensFrom(p + t, |p|) == [t]
  {
    var s := p + t;
    assert s[|p|..|p| + |t|] == t;
    TokenAt(s, |p|, t);
    TokensFromUnfold(s, |p|);
  }

  /** A separator-free `t` after `p` and followed by a separator is the next field. */
  lemma TokenThenSep(p: seq<char>, t: seq<char>, r: seq<char>)
    requires Sep !in t
    ensures TokensFrom(p + t + [Sep] + r, |p|) == [t] + TokensFrom(p + t + [Sep] + r, |p + t + [Sep]|)
  {
    MiddleSlice(p, t, Sep, r);
    TokenNext(p + t + [Sep] + r, |p|, t);
  }

  lemma MiddleSlice<T>(p: seq<T>, t: seq<T>, x: T, r: seq<T>)
    ensures |p + t + [x]| == |p| + |t| + 1 && |p| + |t| < |p + t + [x] + r|
    ensures (p + t + [x] + r)[|p|..|p| + |t|] == t && (p + t + [x] + r)[|p| + |t|] == x
  {
    var s := p + t + [x] + r;
    assert s[|p|..|p| + |t|] == t;
  }

  /** A separator-free `t` at `b` followed by a separator is the next field, and the fields go on after it. */
  lemma TokenNext(s: seq<char>, b: nat, t: seq<char>)
    requires Sep !in t && b + |t| < |s| && s[b..b + |t|] == t && s[b + |t|] == Sep
    ensures TokensFrom(s, b) == [t] + TokensFrom(s, b + |t| + 1)
  {
    TokenAt(s, b, t);
    TokensFromUnfold(s, b);
  }

  /** A separator-free `t` at `b` is the next field when it ends the text or a separator follows it. */
  lemma TokenAt(s: seq<char>, b: nat, t: seq<char>)
    requires Sep !in t && b + |t| <= |s| && s[b..b + |t|] == t
    requires b + |t| == |s| || s[b + |t|] == Sep
    ensures Find(s, Sep, b) == b + |t|
  {
    forall j | b <= j < b + |t| ensures s[j] != Sep {
      assert s[j] == t[j - b];
    }
    FindAt(s, Sep, b, b + |t|);
  }

  /** Splitting fields joined by the separator gives the fields back. */
  lemma JoinSplit(toks: seq<seq<char>>)
    requires |toks| > 0 && SepFree(toks)
    ensures Split(Join(toks)) == toks
  {
    JoinTokensFrom([], toks);
    assert [] + Join(toks) == Join(toks);
  }

  /** Occurrences of `c` in `s`. */
  function Count(s: seq<char>, c: char): nat
  {
    multiset(s)[c]
  }

  lemma {:induction false} TokensFromCount(s: seq<char>, b: nat)
    requires b <= |s|
    ensures |TokensFrom(s, b)| == Count(s[b..], Sep) + 1
    decreases |s| - b
  {
    var e := Find(s, Sep, b);
    if e < |s| {
      FindSkips(s, b);
      TokensFromNext(s, b);
      assert |TokensFrom(s, b)| == |TokensFrom(s, e + 1)| + 1;
      TokensFromCount(s, e + 1);
      CountStep(s, b, e);
    } else {
      TokensFromCountLast(s, b);
    }
  }

  /** No separator from `b` on: one field, and no separator to count. */
  lemma TokensFromCountLast(s: seq<char>, b: nat)
    requires b <= |s| && Find(s, Sep, b) == |s|
    ensures |TokensFrom(s, b)| == Count(s[b..], Sep) + 1
  {
    TokensFromLast(s, b);
    FindSkips(s, b);
    assert s[b..Find(s, Sep, b)] == s[b..];
    CountNone(s[b..], Sep);
  }

  /** One separator, then the rest: one occurrence more than the rest has. */
  lemma CountStep(s: seq<char>, b: nat, e: nat)
    requires b <= e < |s| && s[e] == Sep && Sep !in s[b..e]
    ensures Count(s[b..], Sep) == Count(s[e + 1..], Sep) + 1
  {
    SplitAround(s, b, e);
    CountAround(s[b..e], Sep, s[e + 1..]);
    CountNone(s[b..e], Sep);
  }

  /** A character that does not occur is counted zero times. */
  lemma CountNone(s: seq<char>, c: char)
    requires c !in s
    ensures Count(s, c) == 0
  {
  }

  /** Occurrences of `c` in a concatenation with one `c` in the middle. */
  lemma CountAround(p: seq<char>, c: char, r: seq<char>)
    ensures Count(p + [c] + r, c) == Count(p, c) + 1 + Count(r, c)
  {
    assert multiset(p + [c] + r) == multiset(p) + multiset([c]) + multiset(r);
  }

  /** A line has one field more than it has separators. */
  lemma SplitCount(s: seq<char>)
    ensures |Split(s)| == Count(s, Sep) + 1
  {
    TokensFromCount(s, 0);
    assert s[0..] == s;
  }

  /**
   * `strncasecmp(token, field, |token|) == 0` for C strings: the first
   * |token| characters agree ignoring case. A field shorter than the token
   * meets its terminator against a token character and so differs; a
   * token that is a case-insensitive prefix of the field matches.
   */
  predicate TokenMatches(tok: seq<char>, field: seq<char>)
  {
    |tok| <= |field| && EqualCI(tok, field[..|tok|])
  }

  /** The index of the first matching field, or -1 when none matches. */
  function FirstMatch(toks: seq<seq<char>>, field: seq<char>): (r: int)
    ensures -1 <= r < |toks|
    ensures r >= 0 ==> TokenMatches(toks[r], field)
    ensures r >= 0 ==> forall j :: 0 <= j < r ==> !TokenMatches(toks[j], field)
    ensures r == -1 <==> forall j :: 0 <= j < |toks| ==> !TokenMatches(toks[j], field)
  {
    if toks == [] then -1
    else if TokenMatches(toks[0], field) then 0
    else
      var r := FirstMatch(toks[1..], field);
      assert forall j :: 1 <= j < |toks| ==> toks[j] == toks[1..][j - 1];
      if r == -1 then -1 else r + 1
  }

  /**
   * `indexOf(line, field)`. A line without a separator is compared with the
   * field exactly (`strcmp`): 0 when equal, -1 otherwise. Otherwise the
   * fields are walked left to right and the index of the first one that
   * matches the start of `field` ignoring case is returned; when none
   * matches the count passes the number of separators and -1 is returned.
   */
  method IndexOf(line: seq<char>, field: seq<char>) returns (index: int)
    ensures Sep !in CStr(line) ==> index == (if CStr(line) == CStr(field) then 0 else -1)
    ensures Sep in CStr(line) ==> index == FirstMatch(Split(CStr(line)), CStr(field))
  {
    var s, f := CStr(line), CStr(field);
    var end := Find(s, Sep, 0);
    if end == |s| {
      FindSkips(s, 0);
      assert s[0..end] == s;
      if s == f {
        return 0;
      }
      return -1;
    }
    index := WalkFields(s, f);
    var nsep := CountSeparators(s);
    SplitCount(s);
    if index > nsep {
      return -1;
    }
  }

  /**
   * The field walk of `indexOf` (main.cc:289-299): `begin` and `end` delimit
   * the current field, `index` counts the fields passed. It stops at the
   * first field that matches, or once `begin` passes the end of the line,
   * leaving `index` at the number of fields.
   */
  method WalkFields(s: seq<char>, f: seq<char>) returns (index: nat)
    requires Sep in s
    ensures FirstMatch(Split(s), f) >= 0 ==> index == FirstMatch(Split(s), f)
    ensures FirstMatch(Split(s), f) == -1 ==> index == |Split(s)|
  {
    var begin := 0;
    var end := Find(s, Sep, begin);
    var lineEnd := |s|;
    index := 0;
    ghost var seen: seq<seq<char>> := [];
    ghost var matched := false;
    while begin < lineEnd
      invariant 0 <= begin <= |s| + 1
      invariant begin <= |s| ==> end == Find(s, Sep, begin)
      invariant Walked(s, f, seen, begin) && index == |seen|
      invariant !matched
      decreases |s| + 1 - begin
    {
      if TokenMatches(s[begin..end], f) {
        matched := true;
        break;
      }
      WalkStep(s, f, seen, begin, end);
      seen := seen + [s[begin..end]];
      begin := end + 1;
      if begin <= |s| {
        end := Find(s, Sep, begin);
      }
      index := index + 1;
    }
    WalkEnds(s, f, seen, begin, end, matched);
  }

  /** Where the walk stops, `seen` holds the fields before the first match, or all of them. */
  lemma WalkEnds(s: seq<char>, f: seq<char>, seen: seq<seq<char>>, begin: nat, end: nat, matched: bool)
    requires Walked(s, f, seen, begin) && begin <= |s| + 1
    requires begin <= |s| ==> end == Find(s, Sep, begin)
    requires matched ==> begin <= |s| && TokenMatches(s[begin..end], f)
    requires !matched ==> begin >= |s|
    ensures FirstMatch(Split(s), f) >= 0 ==> |seen| == FirstMatch(Split(s), f)
    ensures FirstMatch(Split(s), f) == -1 ==> |seen| == |Split(s)|
  {
    if matched || begin == |s| {
      TokensFromUnfold(s, begin);
      FoundField(s, f, seen, TokensFrom(s, begin));
    }
  }

  /** No field in `toks` matches `f`. */
  predicate NoneMatch(toks: seq<seq<char>>, f: seq<char>)
  {
    forall j :: 0 <= j < |toks| ==> !TokenMatches(toks[j], f)
  }

  /**
   * The walk so far: the fields passed, none of which matches, followed by
   * the fields from `begin` on (none once `begin` is past the end) make up the line.
   */
  predicate Walked(s: seq<char>, f: seq<char>, seen: seq<seq<char>>, begin: nat)
  {
    && (begin <= |s| ==> Split(s) == seen + TokensFrom(s, begin))
    && (begin > |s| ==> Split(s) == seen)
    && NoneMatch(seen, f)
  }

  /** Passing a field that does not match keeps the walk's invariant. */
  lemma WalkStep(s: seq<char>, f: seq<char>, seen: seq<seq<char>>, begin: nat, end: nat)
    requires begin <= |s| && end == Find(s, Sep, begin) && Walked(s, f, seen, begin)
    requires !TokenMatches(s[begin..end], f)
    ensures Walked(s, f, seen + [s[begin..end]], end + 1)
  {
    NoneMatchSnoc(seen, s[begin..end], f);
    TokensFromUnfold(s, begin);
    if end + 1 <= |s| {
      SnocThenAppend(seen, s[begin..end], TokensFrom(s, end + 1));
    }
  }

  /**
   * Regrouping a field between two runs of fields. Kept as a lemma: stated
   * inline, the equality is proved in the whole context of `WalkStep` and
   * costs several times more.
   */
  lemma SnocThenAppend<T>(a: seq<T>, x: T, b: seq<T>)
    ensures a + ([x] + b) == a + [x] + b
  {
  }

  /** A field that does not match, appended to fields that do not match. */
  lemma NoneMatchSnoc(seen: seq<seq<char>>, tok: seq<char>, f: seq<char>)
    requires NoneMatch(seen, f) && !TokenMatches(tok, f)
    ensures NoneMatch(seen + [tok], f)
  {
    forall j | 0 <= j < |seen| + 1
      ensures !TokenMatches((seen + [tok])[j], f)
    {
      if j < |seen| {
        assert (seen + [tok])[j] == seen[j];
      }
    }
  }

  /**
   * The walk stopped at a field that matches after fields that do not: its
   * index is the first match, and it is at most the separator count.
   */
  lemma FoundField(s: seq<char>, f: seq<char>, seen: seq<seq<char>>, rest: seq<seq<char>>)
    requires Split(s) == seen + rest && |rest| > 0 && TokenMatches(rest[0], f)
    requires NoneMatch(seen, f)
    ensures FirstMatch(Split(s), f) == |seen| <= Count(s, Sep)
  {
    SplitCount(s);
    assert Split(s)[|seen|] == rest[0];
  }

  /** The separator count of `indexOf`: one pass up to the terminator. */
  method CountSeparators(s: seq<char>) returns (nsep: nat)
    ensures nsep == Count(s, Sep)
  {
    nsep := 0;
    var k := 0;
    while k < |s|
      invariant 0 <= k <= |s| && nsep == Count(s[..k], Sep)
    {
      assert s[..k + 1] == s[..k] + [s[k]];
      if s[k] == Sep {
        nsep := nsep + 1;
      }
      k := k + 1;
    }
    assert s[..k] == s;
  }

  /**
   * Among the fields of the header line Date,Open,High,Low,Close, the first
   * that matches "Low" is field 3.
   */
  lemma FirstMatchExample()
    ensures FirstMatch(Split("Date,Open,High,Low,Close"), "Low") == 3
  {
    var toks := ["Date", "Open", "High", "Low", "Close"];
    JoinSplit(toks);
    HeaderJoin();
    assert "Low"[..3] == "Low";
  }

  /** The header line is its five fields joined by separators. */
  lemma HeaderJoin()
    ensures Join(["Date", "Open", "High", "Low", "Close"]) == "Date,Open,High,Low,Close"
  {
  }

  /**
   * `indexOf` on that header line, looking for "Low": it answers 3, the
   * example given with `indexOf` at main.cc:270-275.
   */
  method LowColumnOfHeader() returns (index: int)
    ensures index == 3
  {
    HeaderIsCString();
    FirstMatchExample();
    index := IndexOf("Date,Open,High,Low,Close", "Low");
  }

  /** The header line and "Low" hold no NUL, and the line holds a separator. */
  lemma HeaderIsCString()
    ensures CStr("Date,Open,High,Low,Close") == "Date,Open,High,Low,Close" && CStr("Low") == "Low"
    ensures Sep in "Date,Open,High,Low,Close"
  {
    var line := "Date,Open,High,Low,Close";
    assert line[4] == Sep;
    CStrNoNul(line);
    CStrNoNul("Low");
  }
}
