/** The java.lang.String operations the loader and the analyzer rely on: trim, split on a
    one-character delimiter, equalsIgnoreCase and compareTo. */
module JavaStrings {

  /** String.trim strips every character at or below U+0020 from both ends. */
  predicate Trimmable(c: char)
  {
    c <= ' '
  }

  predicate IsBlank(s: string)
  {
    forall i | 0 <= i < |s| :: Trimmable(s[i])
  }

  /** How many characters trim strips from the front. */
  function LeadingTrimmable(s: string): (n: nat)
    ensures n <= |s|
    ensures IsBlank(s[..n])
    ensures n < |s| ==> !Trimmable(s[n])
  {
    if s != [] && Trimmable(s[0]) then 1 + LeadingTrimmable(s[1..]) else 0
  }

  /** How many characters trim strips from the back. */
  function TrailingTrimmable(s: string): (n: nat)
    ensures n <= |s|
    ensures IsBlank(s[|s| - n..])
    ensures n < |s| ==> !Trimmable(s[|s| - n - 1])
  {
    if s != [] && Trimmable(s[|s| - 1]) then 1 + TrailingTrimmable(s[..|s| - 1]) else 0
  }

  /** String.trim: the text between the leading and the trailing run of trimmable characters. */
  function Trim(s: string): (r: string)
    ensures LeadingTrimmable(s) + |r| <= |s|
    ensures r == s[LeadingTrimmable(s)..LeadingTrimmable(s) + |r|]
    ensures IsBlank(s[LeadingTrimmable(s) + |r|..])
    ensures r == [] || (!Trimmable(r[0]) && !Trimmable(r[|r| - 1]))
  {
    var rest := s[LeadingTrimmable(s)..];
    var n := |rest| - TrailingTrimmable(rest);
    assert rest[..n] == s[LeadingTrimmable(s)..LeadingTrimmable(s) + n];
    assert rest[n..] == s[LeadingTrimmable(s) + n..];
    rest[..n]
  }

  /** `s.trim().isEmpty()` holds exactly for blank strings. */
  lemma TrimEmptyIffBlank(s: string)
    ensures Trim(s) == [] <==> IsBlank(s)
  {
    var st := LeadingTrimmable(s);
    if Trim(s) == [] {
      assert s == s[..st] + s[st..];
    } else {
      assert Trim(s)[0] == s[st];
    }
  }

  /** Trimming twice is trimming once. */
  lemma TrimIdempotent(s: string)
    ensures Trim(Trim(s)) == Trim(s)
  {
    var r := Trim(s);
    if r != [] {
      assert LeadingTrimmable(r) == 0;
      assert TrailingTrimmable(r) == 0;
    }
  }

  /** How often `d` occurs in `s`. */
  function Occurrences(s: string, d: char): (n: nat)
    ensures n <= |s|
    ensures n == 0 <==> d !in s
  {
    if s == [] then 0 else (if s[0] == d then 1 else 0) + Occurrences(s[1..], d)
  }

  /** The pieces of `s` between occurrences of `d`, empty pieces included. */
  function SplitAll(s: string, d: char): (r: seq<string>)
    ensures |r| == Occurrences(s, d) + 1
    ensures forall i | 0 <= i < |r| :: d !in r[i]
  {
    if s == [] then [[]]
    else
      var rest := SplitAll(s[1..], d);
      if s[0] == d then [[]] + rest else [[s[0]] + rest[0]] + rest[1..]
  }

  /** The parts separated by `sep` (Collectors.joining): the inverse of SplitAll. */
  function Join(parts: seq<string>, sep: string): (r: string)
  {
    if parts == [] then []
    else if |parts| == 1 then parts[0]
    else parts[0] + sep + Join(parts[1..], sep)
  }

  /** Joining the pieces with the delimiter gives back the string. */
  lemma {:induction false} JoinSplitAll(s: string, d: char)
    ensures Join(SplitAll(s, d), [d]) == s
  {
    if s != [] {
      var rest := SplitAll(s[1..], d);
      JoinSplitAll(s[1..], d);
      if s[0] == d {
        assert SplitAll(s, d)[1..] == rest;
      } else {
        var r := SplitAll(s, d);
        assert r[1..] == rest[1..];
        if |rest| > 1 {
          assert Join(rest, [d]) == rest[0] + [d] + Join(rest[1..], [d]);
        }
      }
    }
  }

  lemma {:induction false} SplitAllNoDelimiter(s: string, d: char)
    requires d !in s
    ensures SplitAll(s, d) == [s]
  {
    if s != [] {
      SplitAllNoDelimiter(s[1..], d);
      assert [s[0]] + s[1..] == s;
    }
  }

  lemma {:induction false} SplitAllAfterPiece(a: string, d: char, b: string)
    requires d !in a
    ensures SplitAll(a + [d] + b, d) == [a] + SplitAll(b, d)
  {
    var s := a + [d] + b;
    if a == [] {
      assert s[1..] == b;
    } else {
      assert s[1..] == a[1..] + [d] + b;
      SplitAllAfterPiece(a[1..], d, b);
      assert [a[0]] + a[1..] == a;
    }
  }

  /** Splitting a join of delimiter-free parts gives back the parts. */
  lemma {:induction false} SplitAllJoin(parts: seq<string>, d: char)
    requires parts != []
    requires forall i | 0 <= i < |parts| :: d !in parts[i]
    ensures SplitAll(Join(parts, [d]), d) == parts
  {
    if |parts| == 1 {
      SplitAllNoDelimiter(parts[0], d);
    } else {
      SplitAllJoin(parts[1..], d);
      SplitAllAfterPiece(parts[0], d, Join(parts[1..], [d]));
      assert parts == [parts[0]] + parts[1..];
    }
  }

  /** A string ending in the delimiter has an empty last piece. */
  lemma {:induction false} SplitAllEndsEmpty(s: string, d: char)
    requires s != [] && s[|s| - 1] == d
    ensures SplitAll(s, d)[|SplitAll(s, d)| - 1] == []
  {
    if |s| > 1 {
      assert s[1..][|s[1..]| - 1] == d;
      SplitAllEndsEmpty(s[1..], d);
      assert d in s[1..];
    }
  }

  /** The limit-0 rule of String.split: trailing empty strings are removed. */
  function DropTrailingEmpty(parts: seq<string>): (r: seq<string>)
    ensures |r| <= |parts| && r == parts[..|r|]
    ensures r == [] || r[|r| - 1] != []
    ensures forall i | |r| <= i < |parts| :: parts[i] == []
  {
    if parts != [] && parts[|parts| - 1] == [] then DropTrailingEmpty(parts[..|parts| - 1]) else parts
  }

  /** String.split with a one-character delimiter that is not a regular-expression
      metacharacter (the fast path): the whole string when the delimiter does not occur,
      otherwise the pieces with trailing empty strings removed. No quoting is recognised. */
  function Split(s: string, d: char): (r: seq<string>)
    ensures |r| <= Occurrences(s, d) + 1
    ensures forall i | 0 <= i < |r| :: d !in r[i]
    ensures d !in s ==> r == [s]
    ensures d in s ==> r == SplitAll(s, d)[..|r|]
    ensures d in s ==> r == [] || r[|r| - 1] != []
    ensures d in s ==> forall i | |r| <= i < |SplitAll(s, d)| :: SplitAll(s, d)[i] == []
  {
    if d !in s then [s] else DropTrailingEmpty(SplitAll(s, d))
  }

  /** A string ending in the delimiter yields fewer fields than it has pieces: the trailing
      empty field is dropped. */
  lemma SplitDropsTrailingField(s: string, d: char)
    requires s != [] && s[|s| - 1] == d
    ensures |Split(s, d)| <= Occurrences(s, d)
  {
    SplitAllEndsEmpty(s, d);
    assert d in s;
  }

  /** Only trailing empty fields are dropped: the fields are the first pieces. */
  lemma SplitIsPrefixOfPieces(s: string, d: char)
    ensures Split(s, d) == SplitAll(s, d)[..|Split(s, d)|]
  {
    if d !in s {
      SplitAllNoDelimiter(s, d);
    }
  }

  /** ASCII case mapping (Character.toUpperCase and toLowerCase on ASCII letters). */
  function ToUpper(c: char): char
  {
    if 'a' <= c <= 'z' then (c as int - 32) as char else c
  }

  function ToLower(c: char): char
  {
    if 'A' <= c <= 'Z' then (c as int + 32) as char else c
  }

  /** The per-character test of String.regionMatches with ignoreCase. */
  predicate CharEqualsIgnoreCase(a: char, b: char)
  {
    a == b || ToUpper(a) == ToUpper(b) || ToLower(ToUpper(a)) == ToLower(ToUpper(b))
  }

  /** String.equalsIgnoreCase: the same length and every pair of characters equal ignoring case. */
  predicate EqualsIgnoreCase(a: string, b: string)
  {
    |a| == |b| && forall i | 0 <= i < |a| :: CharEqualsIgnoreCase(a[i], b[i])
  }

  /** Two characters are equal ignoring case exactly when their lower-case forms agree. */
  lemma CharEqualsIgnoreCaseIsLowerEquality(a: char, b: char)
    ensures CharEqualsIgnoreCase(a, b) <==> ToLower(a) == ToLower(b)
  {
  }

  /** equalsIgnoreCase is an equivalence relation. */
  lemma EqualsIgnoreCaseIsEquivalence(a: string, b: string, c: string)
    ensures EqualsIgnoreCase(a, a)
    ensures EqualsIgnoreCase(a, b) ==> EqualsIgnoreCase(b, a)
    ensures EqualsIgnoreCase(a, b) && EqualsIgnoreCase(b, c) ==> EqualsIgnoreCase(a, c)
  {
    if EqualsIgnoreCase(a, b) && EqualsIgnoreCase(b, c) {
      forall i | 0 <= i < |a| ensures CharEqualsIgnoreCase(a[i], c[i]) {
        CharEqualsIgnoreCaseIsLowerEquality(a[i], b[i]);
        CharEqualsIgnoreCaseIsLowerEquality(b[i], c[i]);
        CharEqualsIgnoreCaseIsLowerEquality(a[i], c[i]);
      }
    }
    if EqualsIgnoreCase(a, b) {
      forall i | 0 <= i < |a| ensures CharEqualsIgnoreCase(b[i], a[i]) {
        CharEqualsIgnoreCaseIsLowerEquality(a[i], b[i]);
        CharEqualsIgnoreCaseIsLowerEquality(b[i], a[i]);
      }
    }
  }

  /** String.compareTo(a, b) <= 0: the first differing character decides, and a proper
      prefix comes first. */
  predicate StringLe(a: string, b: string)
  {
    a == [] || (b != [] && (a[0] < b[0] || (a[0] == b[0] && StringLe(a[1..], b[1..]))))
  }

  /** compareTo is a total order: any two strings compare, the order is transitive, and
      strings that compare both ways are equal. */
  lemma {:induction false} StringLeTotal(a: string, b: string)
    ensures StringLe(a, b) || StringLe(b, a)
  {
    if a != [] && b != [] && a[0] == b[0] {
      StringLeTotal(a[1..], b[1..]);
    }
  }

  lemma {:induction false} StringLeTransitive(a: string, b: string, c: string)
    requires StringLe(a, b) && StringLe(b, c)
    ensures StringLe(a, c)
  {
    if a != [] && b != [] && c != [] && a[0] == b[0] && b[0] == c[0] {
      StringLeTransitive(a[1..], b[1..], c[1..]);
    }
  }

  lemma {:induction false} StringLeAntisymmetric(a: string, b: string)
    requires StringLe(a, b) && StringLe(b, a)
    ensures a == b
  {
    if a != [] && b != [] {
      StringLeAntisymmetric(a[1..], b[1..]);
      assert a == [a[0]] + a[1..] && b == [b[0]] + b[1..];
    }
  }
}
