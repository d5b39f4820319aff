/**
 * The C library character and string behaviour the programs rely on:
 * `isspace`, `toupper`/`tolower` in the "C" locale, `strlen` on a
 * NUL-terminated buffer, case-insensitive comparison (`strcasecmp`,
 * `strncasecmp`, `strcasestr`), and the two `upper` helpers that
 * main.cc and getstock.cc both define.
 *
 * A `char const *` argument is modelled as the characters it points at;
 * the C string it denotes is the part before the first NUL (`CStr`).
 */
module CText {

  /** `isspace` in the "C" locale: space, and '\t' '\n' '\v' '\f' '\r'. */
  predicate IsSpace(c: char)
  {
    c == ' ' || '\t' <= c <= '\r'
  }

  predicate IsLower(c: char)
  {
    'a' <= c <= 'z'
  }

  predicate IsUpper(c: char)
  {
    'A' <= c <= 'Z'
  }

  /** `toupper`: lower-case ASCII letters map to upper case, everything else is kept. */
  function ToUpper(c: char): (u: char)
    ensures IsLower(c) ==> IsUpper(u) && u as int == c as int - 32
    ensures !IsLower(c) ==> u == c
  {
    if IsLower(c) then (c as int - 32) as char else c
  }

  /** `tolower`: upper-case ASCII letters map to lower case, everything else is kept. */
  function ToLower(c: char): (l: char)
    ensures IsUpper(c) ==> IsLower(l) && l as int == c as int + 32
    ensures !IsUpper(c) ==> l == c
  {
    if IsUpper(c) then (c as int + 32) as char else c
  }

  /** Two characters that `strcasecmp` treats as equal. */
  predicate SameLetter(a: char, b: char)
  {
    ToLower(a) == ToLower(b)
  }

  /** Equal length and equal character by character, ignoring case. */
  predicate EqualCI(a: seq<char>, b: seq<char>)
  {
    |a| == |b| && forall i :: 0 <= i < |a| ==> SameLetter(a[i], b[i])
  }

  /**
   * The C string a buffer holds: the characters before the first NUL, or
   * the whole buffer when it has none.
   */
  function CStr(s: seq<char>): (r: seq<char>)
    ensures |r| <= |s| && r == s[..|r|]
    ensures '\0' !in r
    ensures |r| < |s| ==> s[|r|] == '\0'
  {
    if s == [] || s[0] == '\0' then [] else [s[0]] + CStr(s[1..])
  }

  /** A buffer without NUL is its own C string. */
  lemma {:induction false} CStrNoNul(s: seq<char>)
    requires '\0' !in s
    ensures CStr(s) == s
  {
    if s != [] {
      CStrNoNul(s[1..]);
    }
  }

  /** `strlen`: walks the buffer up to the terminating NUL. */
  method Strlen(s: seq<char>) returns (n: nat)
    ensures n == |CStr(s)|
  {
    n := 0;
    while n < |s| && s[n] != '\0'
      invariant n <= |CStr(s)|
    {
      n := n + 1;
    }
  }

  /**
   * The string with every character passed through `toupper`: same
   * length, no lower-case letter left, and equal to the input ignoring case.
   */
  function UpperString(s: seq<char>): (r: seq<char>)
    ensures |r| == |s|
    ensures forall i :: 0 <= i < |s| ==> !IsLower(r[i])
    ensures EqualCI(r, s)
  {
    seq(|s|, i requires 0 <= i < |s| => ToUpper(s[i]))
  }

  /** Upper-casing twice is upper-casing once. */
  lemma UpperStringIdempotent(s: seq<char>)
    ensures UpperString(UpperString(s)) == UpperString(s)
  {
  }

  /** `upper(std::string const &)` (getstock.cc): resize, then one `toupper` per position. */
  method Upper(s: seq<char>) returns (ret: seq<char>)
    ensures ret == UpperString(s)
  {
    ret := seq(|s|, _ => '\0');
    var i := 0;
    while i < |s|
      invariant 0 <= i <= |s| && |ret| == |s|
      invariant forall j :: 0 <= j < i ==> ret[j] == ToUpper(s[j])
    {
      ret := ret[i := ToUpper(s[i])];
      i := i + 1;
    }
  }

  /**
   * `upper(char const *)`, defined identically in main.cc and getstock.cc:
   * `strlen` first, then the same loop over that many characters.
   */
  method UpperCStr(s: seq<char>) returns (ret: seq<char>)
    ensures ret == UpperString(CStr(s))
  {
    var size := Strlen(s);
    assert s[..size] == CStr(s);
    ret := seq(size, _ => '\0');
    var i := 0;
    while i < size
      invariant 0 <= i <= size && |ret| == size
      invariant forall j :: 0 <= j < i ==> ret[j] == ToUpper(s[j])
    {
      ret := ret[i := ToUpper(s[i])];
      i := i + 1;
    }
  }

  /**
   * `strcasestr(hay, needle) != NULL`: some window of `hay` equals `needle`
   * ignoring case (an empty needle is found at the start).
   */
  predicate ContainsCI(hay: seq<char>, needle: seq<char>)
  {
    exists k :: 0 <= k <= |hay| && OccursAt(hay, needle, k)
  }

  /** `needle` equals, ignoring case, the window of `hay` starting at `k`. */
  predicate OccursAt(hay: seq<char>, needle: seq<char>, k: nat)
  {
    k + |needle| <= |hay| && EqualCI(hay[k..k + |needle|], needle)
  }

  /** Every string contains the empty string, and every string contains itself. */
  lemma ContainsCIBasics(hay: seq<char>)
    ensures ContainsCI(hay, [])
    ensures ContainsCI(hay, hay)
    ensures ContainsCI(hay, UpperString(hay))
  {
    assert OccursAt(hay, [], 0);
    assert hay[0..|hay|] == hay;
    assert OccursAt(hay, hay, 0);
    assert OccursAt(hay, UpperString(hay), 0);
  }
}
