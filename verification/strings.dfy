/**
 * The JavaScript string built-ins that target-currency parsing relies on:
 * `split` on a one-character separator, `join`, `trim` and `toUpperCase`,
 * restricted to ASCII.
 */
module Strings {

  /** The ASCII characters `String.prototype.trim` removes: space, tab,
      line feed, vertical tab, form feed and carriage return. */
  predicate IsWhite(c: char) {
    c == ' ' || c == '\t' || c == '\n' || c == '\U{000B}' || c == '\U{000C}' || c == '\r'
  }

  predicate IsLower(c: char) {
    'a' <= c <= 'z'
  }

  predicate IsLetter(c: char) {
    'a' <= c <= 'z' || 'A' <= c <= 'Z'
  }

  /** `s.split(sep)`: the pieces between occurrences of `sep`, in order.
      There is always one more piece than separators, so "" splits into [""]. */
  function Split(s: string, sep: char): (parts: seq<string>)
    ensures |parts| >= 1
    ensures forall i :: 0 <= i < |parts| ==> sep !in parts[i]
    ensures |parts| == Occurrences(s, sep) + 1
  {
    if s == [] then [""]
    else
      var rest := Split(s[1..], sep);
      if s[0] == sep then [""] + rest
      else [[s[0]] + rest[0]] + rest[1..]
  }

  /** Number of occurrences of `c` in `s`. */
  function Occurrences(s: string, c: char): nat {
    if s == [] then 0 else (if s[0] == c then 1 else 0) + Occurrences(s[1..], c)
  }

  /** `parts.join(sep)`; an empty list joins to "". */
  function Join(parts: seq<string>, sep: char): string {
    if |parts| == 0 then ""
    else if |parts| == 1 then parts[0]
    else parts[0] + [sep] + Join(parts[1..], sep)
  }

  /** Between separator-free parts the join puts exactly one separator. */
  lemma {:induction false} JoinOccurrences(parts: seq<string>, sep: char)
    requires |parts| >= 1
    requires forall i :: 0 <= i < |parts| ==> sep !in parts[i]
    ensures Occurrences(Join(parts, sep), sep) == |parts| - 1
  {
    OccurrencesAbsent(parts[0], sep);
    if |parts| > 1 {
      var rest := Join(parts[1..], sep);
      JoinOccurrences(parts[1..], sep);
      assert Join(parts, sep) == parts[0] + ([sep] + rest);
      OccurrencesConcat(parts[0], [sep] + rest, sep);
      assert ([sep] + rest)[1..] == rest;
    }
  }

  /** Counting distributes over concatenation. */
  lemma {:induction false} OccurrencesConcat(a: string, b: string, c: char)
    ensures Occurrences(a + b, c) == Occurrences(a, c) + Occurrences(b, c)
  {
    if a != [] {
      assert (a + b)[1..] == a[1..] + b;
      OccurrencesConcat(a[1..], b, c);
    } else {
      assert a + b == b;
    }
  }

  /** A character that does not occur is counted zero times. */
  lemma {:induction false} OccurrencesAbsent(a: string, c: char)
    requires c !in a
    ensures Occurrences(a, c) == 0
  {
    if a != [] {
      assert a[0] != c;
      OccurrencesAbsent(a[1..], c);
    }
  }

  /** Joining the pieces of a split gives back the original text. */
  lemma {:induction false} JoinSplit(s: string, sep: char)
    ensures Join(Split(s, sep), sep) == s
  {
    if s != [] {
      var rest := Split(s[1..], sep);
      JoinSplit(s[1..], sep);
      if s[0] == sep {
        assert Split(s, sep) == [""] + rest;
        assert ([""] + rest)[1..] == rest;
        calc {
          Join(Split(s, sep), sep);
          "" + [sep] + Join(rest, sep);
          [s[0]] + s[1..];
          s;
        }
      } else if |rest| == 1 {
        assert Split(s, sep) == [[s[0]] + rest[0]];
        assert Join(rest, sep) == rest[0];
        assert [s[0]] + s[1..] == s;
      } else {
        var parts := [[s[0]] + rest[0]] + rest[1..];
        assert parts[1..] == rest[1..];
        calc {
          Join(parts, sep);
          [s[0]] + rest[0] + [sep] + Join(rest[1..], sep);
          [s[0]] + (rest[0] + [sep] + Join(rest[1..], sep));
          [s[0]] + Join(rest, sep);
          s;
        }
      }
    }
  }

  /** Splitting text that starts with a separator-free prefix `a` puts `a`
      at the front of the first piece. */
  lemma {:induction false} SplitPrefix(a: string, t: string, sep: char)
    requires sep !in a
    ensures Split(a + t, sep) == [a + Split(t, sep)[0]] + Split(t, sep)[1..]
  {
    if a != [] {
      var st := Split(t, sep);
      assert (a + t)[1..] == a[1..] + t;
      assert (a + t)[0] == a[0];
      SplitPrefix(a[1..], t, sep);
      var rest := Split(a[1..] + t, sep);
      assert rest[0] == a[1..] + st[0];
      assert rest[1..] == st[1..];
      assert [a[0]] + (a[1..] + st[0]) == a + st[0];
    } else {
      assert a + t == t;
      assert a + Split(t, sep)[0] == Split(t, sep)[0];
      assert [Split(t, sep)[0]] + Split(t, sep)[1..] == Split(t, sep);
    }
  }

  /** Splitting a join of separator-free pieces gives back the pieces. */
  lemma {:induction false} SplitJoin(parts: seq<string>, sep: char)
    requires |parts| >= 1
    requires forall i :: 0 <= i < |parts| ==> sep !in parts[i]
    ensures Split(Join(parts, sep), sep) == parts
  {
    if |parts| == 1 {
      SplitPrefix(parts[0], "", sep);
      assert parts[0] + "" == parts[0];
      assert parts[0] + Split("", sep)[0] == parts[0];
    } else {
      var tail := Join(parts[1..], sep);
      SplitJoin(parts[1..], sep);
      assert Join(parts, sep) == parts[0] + ([sep] + tail);
      SplitPrefix(parts[0], [sep] + tail, sep);
      assert ([sep] + tail)[1..] == tail;
      assert Split([sep] + tail, sep) == [""] + parts[1..];
      assert parts[0] + "" == parts[0];
      assert [parts[0]] + parts[1..] == parts;
    }
  }

  /** `s.trimStart()`: drops the leading white space. */
  function TrimStart(s: string): (r: string)
    ensures |r| <= |s|
    ensures forall k :: 0 <= k < |s| - |r| ==> IsWhite(s[k])
    ensures r == [] || !IsWhite(r[0])
  {
    if s != [] && IsWhite(s[0]) then TrimStart(s[1..]) else s
  }

  /** What `trimStart` keeps is the tail of its input: its `k`-th character
      is the input's `k`-th from where the white space ends. */
  lemma {:induction false} TrimStartAt(s: string, k: int)
    requires 0 <= k < |TrimStart(s)|
    ensures TrimStart(s)[k] == s[|s| - |TrimStart(s)| + k]
  {
    if s != [] && IsWhite(s[0]) {
      TrimStartAt(s[1..], k);
    }
  }

  /** `s.trimEnd()`: drops the trailing white space. */
  function TrimEnd(s: string): (r: string)
    ensures |r| <= |s|
    ensures forall k :: |r| <= k < |s| ==> IsWhite(s[k])
    ensures r == [] || !IsWhite(r[|r| - 1])
  {
    if s != [] && IsWhite(s[|s| - 1]) then TrimEnd(s[..|s| - 1]) else s
  }

  /** What `trimEnd` keeps is the head of its input. */
  lemma {:induction false} TrimEndAt(s: string, k: int)
    requires 0 <= k < |TrimEnd(s)|
    ensures TrimEnd(s)[k] == s[k]
  {
    if s != [] && IsWhite(s[|s| - 1]) {
      TrimEndAt(s[..|s| - 1], k);
    }
  }

  /** `s.trim()`: drops the white space at both ends; nothing is left
      exactly when there was nothing but white space. */
  function Trim(s: string): (r: string)
    ensures r == [] || (!IsWhite(r[0]) && !IsWhite(r[|r| - 1]))
    ensures |r| <= |s|
    ensures r == [] <==> forall k :: 0 <= k < |s| ==> IsWhite(s[k])
  {
    TrimCutsOut(s);
    TrimFront(s);
    TrimEnd(TrimStart(s))
  }

  /** `trimEnd` does not touch the first character `trimStart` kept. */
  lemma TrimFront(s: string)
    ensures TrimEnd(TrimStart(s)) == [] || TrimEnd(TrimStart(s))[0] == TrimStart(s)[0]
  {
    if TrimEnd(TrimStart(s)) != [] {
      TrimEndAt(TrimStart(s), 0);
    }
  }

  /** The trim is an infix of its input with only white space around it. */
  lemma TrimCutsOut(s: string)
    ensures CutOut(s, |s| - |TrimStart(s)|, TrimEnd(TrimStart(s)))
  {
    TrimKeepsInfix(s);
    TrimDropsTrailing(s);
  }

  /** Characters `trim` keeps sit where `trimStart` left them. */
  lemma TrimKeepsInfix(s: string)
    ensures forall k :: 0 <= k < |TrimEnd(TrimStart(s))| ==>
      TrimEnd(TrimStart(s))[k] == s[|s| - |TrimStart(s)| + k]
  {
    forall k | 0 <= k < |TrimEnd(TrimStart(s))|
      ensures TrimEnd(TrimStart(s))[k] == s[|s| - |TrimStart(s)| + k]
    {
      TrimAt(s, k);
    }
  }

  /** The `k`-th character `trim` keeps. */
  lemma TrimAt(s: string, k: int)
    requires 0 <= k < |TrimEnd(TrimStart(s))|
    ensures TrimEnd(TrimStart(s))[k] == s[|s| - |TrimStart(s)| + k]
  {
    TrimEndAt(TrimStart(s), k);
    TrimStartAt(s, k);
  }

  /** What `trimEnd` drops after `trimStart` is white space of the input. */
  lemma TrimDropsTrailing(s: string)
    ensures forall k :: |s| - |TrimStart(s)| + |TrimEnd(TrimStart(s))| <= k < |s| ==> IsWhite(s[k])
  {
    var t := TrimStart(s);
    var i := |s| - |t|;
    forall k | i + |TrimEnd(t)| <= k < |s| ensures IsWhite(s[k]) {
      TrimStartAt(s, k - i);
      assert IsWhite(t[k - i]);
    }
  }

  /** The trim is cut out of its input by removing only white space. */
  lemma TrimIsCutOut(s: string)
    ensures exists i :: CutOut(s, i, Trim(s))
  {
    var i := |s| - |TrimStart(s)|;
    TrimCutsOut(s);
    assert CutOut(s, i, Trim(s));
  }

  /** Text that neither starts nor ends with white space is its own trim. */
  lemma TrimUntouched(s: string)
    requires s == [] || (!IsWhite(s[0]) && !IsWhite(s[|s| - 1]))
    ensures Trim(s) == s
  {
    assert TrimStart(s) == s;
  }

  /** Leading white space does not survive a trim. */
  lemma TrimLeadingWhite(s: string)
    requires s != [] && IsWhite(s[0])
    ensures Trim(s) == Trim(s[1..])
  {
  }

  /** `r` is the infix of `s` starting at `i`, and everything around it is
      white space. */
  predicate CutOut(s: string, i: int, r: string) {
    0 <= i <= |s| - |r|
    && (forall k :: 0 <= k < |r| ==> r[k] == s[i + k])
    && (forall k :: 0 <= k < i ==> IsWhite(s[k]))
    && (forall k :: i + |r| <= k < |s| ==> IsWhite(s[k]))
  }

  /** `c.toUpperCase()` on ASCII: a..z become A..Z, all else is kept. */
  function UpperChar(c: char): (u: char)
    ensures !IsLower(u)
    ensures IsLower(c) ==> u as int == c as int - 32
    ensures !IsLower(c) ==> u == c
    ensures IsLetter(u) == IsLetter(c)
  {
    if IsLower(c) then (c as int - 32) as char else c
  }

  /** `s.toUpperCase()` on ASCII text. */
  function Upper(s: string): (r: string)
    ensures |r| == |s|
    ensures forall k :: 0 <= k < |r| ==> !IsLower(r[k])
    ensures forall k :: 0 <= k < |s| ==> IsLetter(r[k]) == IsLetter(s[k])
    ensures forall k :: 0 <= k < |s| && !IsLower(s[k]) ==> r[k] == s[k]
    ensures forall k :: 0 <= k < |s| ==> IsWhite(r[k]) == IsWhite(s[k])
    ensures forall k :: 0 <= k < |s| ==> r[k] == UpperChar(s[k])
  {
    seq(|s|, k requires 0 <= k < |s| => UpperChar(s[k]))
  }
}
