/** Python string operations used by the tool, written out with Python 3's
    semantics: `str.split(sep)`, `str.strip(chars)`, `str.replace(old, new)`,
    `str(int)` and `int(str)`. */
module Text {

  datatype Option<+T> = None | Some(value: T)

  predicate IsDigit(c: char) { '0' <= c <= '9' }

  predicate IsHexDigit(c: char) {
    IsDigit(c) || 'a' <= c <= 'f' || 'A' <= c <= 'F'
  }

  // ---------------------------------------------------------------------
  // split / join

  /** `s.split(sep)`: the pieces between occurrences of `sep`; never empty. */
  function Split(s: string, sep: char): (parts: seq<string>)
    ensures |parts| >= 1
    decreases |s|
  {
    if s == [] then [""]
    else if s[0] == sep then [""] + Split(s[1..], sep)
    else
      var rest := Split(s[1..], sep);
      [[s[0]] + rest[0]] + rest[1..]
  }

  /** `sep.join(parts)`. */
  function Join(parts: seq<string>, sep: char): string
  {
    if parts == [] then ""
    else if |parts| == 1 then parts[0]
    else parts[0] + [sep] + Join(parts[1..], sep)
  }

  /** Joining a part in front of at least one more. */
  lemma JoinCons(p: string, ps: seq<string>, sep: char)
    requires ps != []
    ensures Join([p] + ps, sep) == p + [sep] + Join(ps, sep)
  {
    assert ([p] + ps)[1..] == ps;
  }

  /** No piece produced by `split` contains the separator. */
  lemma {:induction false} SplitPiecesFree(s: string, sep: char)
    ensures forall k :: 0 <= k < |Split(s, sep)| ==> sep !in Split(s, sep)[k]
    decreases |s|
  {
    if s != [] {
      SplitPiecesFree(s[1..], sep);
    }
  }

  /** Joining the pieces of a split gives back the original text. */
  lemma {:induction false} JoinSplit(s: string, sep: char)
    ensures Join(Split(s, sep), sep) == s
    decreases |s|
  {
    if s != [] {
      var rest := Split(s[1..], sep);
      JoinSplit(s[1..], sep);
      if s[0] == sep {
        if |rest| == 1 {
          assert Join(rest, sep) == rest[0];
        }
        assert Join([""] + rest, sep) == "" + [sep] + Join(rest, sep);
      } else {
        var parts := [[s[0]] + rest[0]] + rest[1..];
        if |rest| == 1 {
          assert Join(parts, sep) == [s[0]] + rest[0];
        } else {
          assert parts[1..] == rest[1..];
          assert Join(parts, sep) == [s[0]] + rest[0] + [sep] + Join(rest[1..], sep);
          assert Join(rest, sep) == rest[0] + [sep] + Join(rest[1..], sep);
        }
      }
    }
  }

  /** Splitting the join of separator-free pieces gives back the pieces. */
  lemma {:induction false} SplitJoin(parts: seq<string>, sep: char)
    requires |parts| >= 1
    requires forall k :: 0 <= k < |parts| ==> sep !in parts[k]
    ensures Split(Join(parts, sep), sep) == parts
    decreases |parts|, |parts[0]|
  {
    if |parts| == 1 {
      SplitOfFree(parts[0], sep);
    } else if parts[0] == "" {
      var tail := parts[1..];
      assert Join(parts, sep) == [sep] + Join(tail, sep);
      SplitJoin(tail, sep);
      assert ([sep] + Join(tail, sep))[1..] == Join(tail, sep);
      assert parts == [""] + tail;
    } else {
      var c := parts[0][0];
      var shorter := [parts[0][1..]] + parts[1..];
      assert forall k :: 0 <= k < |shorter| ==> sep !in shorter[k] by {
        assert shorter[0] == parts[0][1..];
        forall k | 1 <= k < |shorter| ensures shorter[k] == parts[k] { }
      }
      assert parts[0] == [c] + parts[0][1..];
      assert Join(parts, sep) == [c] + Join(shorter, sep) by {
        assert shorter[1..] == parts[1..];
      }
      SplitJoin(shorter, sep);
      assert c != sep by { assert c == parts[0][0]; }
      var s := Join(parts, sep);
      assert s[1..] == Join(shorter, sep);
      assert Split(s, sep) == [[c] + shorter[0]] + shorter[1..];
      assert [[c] + shorter[0]] + shorter[1..] == parts;
    }
  }

  lemma {:induction false} SplitOfFree(s: string, sep: char)
    requires sep !in s
    ensures Split(s, sep) == [s]
    decreases |s|
  {
    if s != [] {
      assert sep !in s[1..] by {
        forall k | 0 <= k < |s[1..]| ensures s[1..][k] != sep {
          assert s[1..][k] == s[k + 1];
        }
      }
      SplitOfFree(s[1..], sep);
      assert [s[0]] + s[1..] == s;
    }
  }

  /** There are at least two pieces exactly when the separator occurs. */
  lemma {:induction false} SplitHasTwoPieces(s: string, sep: char)
    ensures |Split(s, sep)| >= 2 <==> sep in s
    decreases |s|
  {
    if s != [] {
      SplitHasTwoPieces(s[1..], sep);
      assert s == [s[0]] + s[1..];
    }
  }

  // ---------------------------------------------------------------------
  // strip

  /** `s.lstrip(chars)`: drop the leading characters that are in `chars`. */
  function StripLeft(s: string, chars: set<char>): (r: string)
    ensures |r| <= |s| && r == s[|s| - |r|..]
    ensures r != [] ==> r[0] !in chars
    ensures forall k :: 0 <= k < |s| - |r| ==> s[k] in chars
    decreases |s|
  {
    if s != [] && s[0] in chars then StripLeft(s[1..], chars) else s
  }

  /** `s.rstrip(chars)`: drop the trailing characters that are in `chars`. */
  function StripRight(s: string, chars: set<char>): (r: string)
    ensures |r| <= |s| && r == s[..|r|]
    ensures r != [] ==> r[|r| - 1] !in chars
    ensures forall k :: |r| <= k < |s| ==> s[k] in chars
    decreases |s|
  {
    if s != [] && s[|s| - 1] in chars then StripRight(s[..|s| - 1], chars) else s
  }

  /** `s.strip(chars)`: a contiguous middle part of `s` that neither starts nor
      ends with a character of `chars`, everything around it being in `chars`. */
  function Strip(s: string, chars: set<char>): (r: string)
  {
    StripRight(StripLeft(s, chars), chars)
  }

  /** Stripping leaves text alone when its ends are already not in `chars`. */
  lemma StripUnchanged(s: string, chars: set<char>)
    requires s != [] ==> s[0] !in chars && s[|s| - 1] !in chars
    ensures Strip(s, chars) == s
  {
  }

  /** One stripped character after text with clean ends is all `strip` removes. */
  lemma StripOneTrailing(s: string, c: char, chars: set<char>)
    requires s != [] && s[0] !in chars && s[|s| - 1] !in chars && c in chars
    ensures Strip(s + [c], chars) == s
  {
    assert (s + [c])[0] == s[0];
    assert StripLeft(s + [c], chars) == s + [c];
    StripRightOne(s, c, chars);
  }

  lemma StripRightOne(s: string, c: char, chars: set<char>)
    requires s != [] && s[|s| - 1] !in chars && c in chars
    ensures StripRight(s + [c], chars) == s
  {
    assert (s + [c])[..|s|] == s;
  }

  // ---------------------------------------------------------------------
  // replace

  /** `s.replace(pat, rep)`: every non-overlapping occurrence of `pat`, found
      scanning from the left, is replaced by `rep`. */
  function Replace(s: string, pat: string, rep: string): string
    requires pat != []
    decreases |s|
  {
    if |pat| <= |s| && s[..|pat|] == pat then rep + Replace(s[|pat|..], pat, rep)
    else if s == [] then []
    else [s[0]] + Replace(s[1..], pat, rep)
  }

  /** Where `pat` starts `s`, the replacement is emitted and `pat` skipped. */
  lemma ReplaceAtMatch(s: string, pat: string, rep: string)
    requires pat != [] && |pat| <= |s| && s[..|pat|] == pat
    ensures Replace(s, pat, rep) == rep + Replace(s[|pat|..], pat, rep)
  {
  }

  /** Where `pat` does not start a non-empty `s`, its first character is kept. */
  lemma ReplaceNoMatch(s: string, pat: string, rep: string)
    requires pat != [] && s != [] && !(|pat| <= |s| && s[..|pat|] == pat)
    ensures Replace(s, pat, rep) == [s[0]] + Replace(s[1..], pat, rep)
  {
  }

  /** Replacing one character by another changes exactly its occurrences. */
  lemma {:induction false} ReplaceChar(s: string, a: char, b: char)
    ensures |Replace(s, [a], [b])| == |s|
    ensures forall k :: 0 <= k < |s| ==>
      Replace(s, [a], [b])[k] == if s[k] == a then b else s[k]
    decreases |s|
  {
    if s != [] {
      ReplaceChar(s[1..], a, b);
      var r := Replace(s[1..], [a], [b]);
      if s[..1] == [a] {
        assert Replace(s, [a], [b]) == [b] + r;
      } else {
        assert Replace(s, [a], [b]) == [s[0]] + r;
      }
    }
  }

  /** Replacing a character that does not occur changes nothing. */
  lemma ReplaceCharAbsent(s: string, a: char, b: char)
    requires forall k :: 0 <= k < |s| ==> s[k] != a
    ensures Replace(s, [a], [b]) == s
  {
    ReplaceChar(s, a, b);
  }

  /** `pat` occurs in `s` starting at index `k`. */
  predicate OccursAt(s: string, k: nat, pat: string)
  {
    k + |pat| <= |s| && s[k..k + |pat|] == pat
  }

  /** A pattern that does not occur is not replaced. */
  lemma {:induction false} ReplaceAbsent(s: string, pat: string, rep: string)
    requires pat != []
    requires forall k: nat :: k <= |s| ==> !OccursAt(s, k, pat)
    ensures Replace(s, pat, rep) == s
    decreases |s|
  {
    if s != [] {
      assert !OccursAt(s, 0, pat);
      forall k: nat | k <= |s[1..]| ensures !OccursAt(s[1..], k, pat) {
        assert !OccursAt(s, k + 1, pat);
        if k + |pat| <= |s[1..]| {
          assert s[1..][k..k + |pat|] == s[k + 1..k + 1 + |pat|];
        }
      }
      ReplaceAbsent(s[1..], pat, rep);
      assert [s[0]] + s[1..] == s;
    }
  }

  // ---------------------------------------------------------------------
  // decimal text of integers

  function DigitChar(d: nat): char
    requires d < 10
  {
    "0123456789"[d]
  }

  function DigitValue(c: char): nat
    requires IsDigit(c)
  {
    (c - '0') as nat
  }

  /** `str(n)` for a non-negative `n`. */
  function NatToDecimal(n: nat): (s: string)
    ensures s != [] && forall k :: 0 <= k < |s| ==> IsDigit(s[k])
  {
    if n < 10 then [DigitChar(n)] else NatToDecimal(n / 10) + [DigitChar(n % 10)]
  }

  /** `str(n)`. */
  function IntToDecimal(n: int): string
  {
    if n < 0 then "-" + NatToDecimal(-n) else NatToDecimal(n)
  }

  /** Digits with single underscores between them, as `int()` accepts. */
  predicate WellFormedDigits(s: string)
  {
    && s != []
    && IsDigit(s[0])
    && IsDigit(s[|s| - 1])
    && (forall k :: 0 <= k < |s| ==> DigitOrUnderscore(s[k]))
    && forall k :: 0 <= k < |s| - 1 && s[k] == '_' ==> IsDigit(s[k + 1])
  }

  predicate DigitOrUnderscore(c: char) { IsDigit(c) || c == '_' }

  /** The value of a run of digits, ignoring underscores. */
  function DecimalValue(s: string): nat
    requires forall k :: 0 <= k < |s| ==> DigitOrUnderscore(s[k])
  {
    if s == [] then 0
    else if s[|s| - 1] == '_' then DecimalValue(s[..|s| - 1])
    else
      assert DigitOrUnderscore(s[|s| - 1]);
      10 * DecimalValue(s[..|s| - 1]) + DigitValue(s[|s| - 1])
  }

  /** The ASCII characters that `str.isspace()` accepts and that `int()`
      skips around the digits: the six C whitespace characters and the four
      information separators U+001C to U+001F. */
  const PyWhitespace: set<char> := {' ', '\t', '\n', '\r', '\U{B}', '\U{C}', '\U{1C}', '\U{1D}', '\U{1E}', '\U{1F}'}

  /** The value of well-formed digits; `None` otherwise. */
  function ParseDigits(body: string): Option<nat>
  {
    if WellFormedDigits(body) then Some(DecimalValue(body)) else None
  }

  /** Optional sign followed by digits. */
  function ParseSigned(t: string): Option<int>
  {
    if t != [] && t[0] == '-' then
      match ParseDigits(t[1..])
      case None => None
      case Some(v) => Some(-(v as int))
    else if t != [] && t[0] == '+' then
      match ParseDigits(t[1..])
      case None => None
      case Some(v) => Some(v)
    else
      match ParseDigits(t)
      case None => None
      case Some(v) => Some(v)
  }

  /** `int(s)`: `None` stands for the ValueError Python raises. */
  function ParseInt(s: string): Option<int>
  {
    ParseSigned(Strip(s, PyWhitespace))
  }

  lemma {:induction false} DecimalValueOfDecimal(n: nat)
    ensures DecimalValue(NatToDecimal(n)) == n
  {
    var s := NatToDecimal(n);
    if n >= 10 {
      DecimalValueOfDecimal(n / 10);
      assert s[..|s| - 1] == NatToDecimal(n / 10);
      assert DigitValue(DigitChar(n % 10)) == n % 10;
    } else {
      assert DigitValue(DigitChar(n)) == n;
    }
  }

  lemma DecimalParses(m: nat)
    ensures ParseDigits(NatToDecimal(m)) == Some(m)
  {
    var s := NatToDecimal(m);
    assert WellFormedDigits(s);
    DecimalValueOfDecimal(m);
  }

  /** A sign in front of digits is read as that sign. */
  lemma SignedDigits(digits: string, m: nat)
    requires ParseDigits(digits) == Some(m) && IsDigit(digits[0])
    ensures ParseSigned(digits) == Some(m)
    ensures ParseSigned("-" + digits) == Some(-(m as int))
  {
    assert ("-" + digits)[1..] == digits;
  }

  /** Reading back what `str` wrote gives the same integer. */
  lemma IntRoundTrip(n: int)
    ensures ParseInt(IntToDecimal(n)) == Some(n)
  {
    var m: nat := if n < 0 then -n else n;
    var digits := NatToDecimal(m);
    DecimalParses(m);
    SignedDigits(digits, m);
    var s := IntToDecimal(n);
    assert s[0] == '-' || IsDigit(s[0]);
    assert IsDigit(s[|s| - 1]);
    StripUnchanged(s, PyWhitespace);
  }
}
