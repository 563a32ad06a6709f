/**
 * Target-currency parsing of the yield calculator (`parseCurrencies`,
 * src/main.js:132-133): split the free text on commas, trim and upper-case
 * every piece, drop the empty ones and keep the first occurrence of each
 * code, as spreading a `Set` built from the pieces does.
 */
module Currencies {
  import opened Strings

  /** No element occurs twice. */
  predicate NoDuplicates(xs: seq<string>) {
    forall i, j :: 0 <= i < j < |xs| ==> xs[i] != xs[j]
  }

  /** The position of the first occurrence of `x` in `xs`. */
  function FirstIndex(xs: seq<string>, x: string): (i: nat)
    requires x in xs
    ensures i < |xs| && xs[i] == x && x !in xs[..i]
  {
    if xs[0] == x then 0
    else
      var i := 1 + FirstIndex(xs[1..], x);
      assert xs[..i] == [xs[0]] + xs[1..][..i - 1];
      i
  }

  /** A code as parsing produces it: non-empty, free of commas and lower-case
      letters, neither starting nor ending with white space. */
  predicate Canonical(code: string) {
    code != []
    && !IsWhite(code[0]) && !IsWhite(code[|code| - 1])
    && ',' !in code
    && forall k :: 0 <= k < |code| ==> !IsLower(code[k])
  }

  /** One piece of the input, as `s.trim().toUpperCase()`; it is empty exactly
      when the piece is nothing but white space. */
  function Normalize(piece: string): (code: string)
    ensures |code| <= |piece|
    ensures code == [] || (!IsWhite(code[0]) && !IsWhite(code[|code| - 1]))
    ensures forall k :: 0 <= k < |code| ==> !IsLower(code[k])
    ensures ',' !in piece ==> ',' !in code
    ensures code == [] <==> forall k :: 0 <= k < |piece| ==> IsWhite(piece[k])
  {
    TrimCutsOut(piece);
    Upper(Trim(piece))
  }

  /** The input split on commas, every piece trimmed and upper-cased. */
  function Pieces(input: string): (codes: seq<string>)
    ensures |codes| == |Split(input, ',')|
    ensures forall k :: 0 <= k < |codes| ==> codes[k] == Normalize(Split(input, ',')[k])
  {
    var parts := Split(input, ',');
    seq(|parts|, k requires 0 <= k < |parts| => Normalize(parts[k]))
  }

  /** `.filter(Boolean)` on strings: keeps the non-empty ones, in order. */
  function NonEmpty(xs: seq<string>): (r: seq<string>)
    ensures |r| <= |xs|
    ensures forall x :: x in r <==> x in xs && x != ""
  {
    if xs == [] then []
    else if xs[0] == "" then NonEmpty(xs[1..])
    else [xs[0]] + NonEmpty(xs[1..])
  }

  /** `filter` works element by element: filtering a concatenation
      concatenates the filtered parts, so order and repetitions are kept. */
  lemma {:induction false} NonEmptyConcat(a: seq<string>, b: seq<string>)
    ensures NonEmpty(a + b) == NonEmpty(a) + NonEmpty(b)
  {
    if a == [] {
      assert a + b == b;
    } else {
      assert (a + b)[1..] == a[1..] + b;
      NonEmptyConcat(a[1..], b);
    }
  }

  /** `[...new Set(xs)]`: each element once, where it first occurs. */
  function Dedup(xs: seq<string>): (r: seq<string>)
    ensures |r| <= |xs|
    ensures NoDuplicates(r)
    ensures forall x :: x in r <==> x in xs
  {
    if xs == [] then []
    else
      var d := Dedup(xs[..|xs| - 1]);
      var last := xs[|xs| - 1];
      assert xs == xs[..|xs| - 1] + [last];
      if last in d then d else d + [last]
  }

  /** `parseCurrencies(input)`: distinct canonical codes. */
  function ParseCurrencies(input: string): (codes: seq<string>)
    ensures NoDuplicates(codes)
    ensures forall c :: c in codes ==> Canonical(c)
  {
    PiecesCanonical(input);
    Dedup(NonEmpty(Pieces(input)))
  }

  lemma PiecesCanonical(input: string)
    ensures forall c :: c in NonEmpty(Pieces(input)) ==> Canonical(c)
  {
    var pieces := Pieces(input);
    forall c | c in NonEmpty(pieces) ensures Canonical(c) {
      assert c in pieces;
      var k :| 0 <= k < |pieces| && pieces[k] == c;
      PieceCanonical(input, k);
    }
  }

  lemma PieceCanonical(input: string, k: nat)
    requires k < |Pieces(input)| && Pieces(input)[k] != ""
    ensures Canonical(Pieces(input)[k])
  {
  }

  /** Elements in `xs` are ordered by where they first occur in `ys`. */
  predicate OrderedByFirstOccurrence(xs: seq<string>, ys: seq<string>) {
    forall i, j :: 0 <= i < j < |xs| ==>
      xs[i] in ys && xs[j] in ys && FirstIndex(ys, xs[i]) < FirstIndex(ys, xs[j])
  }

  /** The first occurrence is the one with no earlier occurrence. */
  lemma {:induction false} FirstIndexUnique(xs: seq<string>, x: string, k: nat)
    requires k < |xs| && xs[k] == x && x !in xs[..k]
    ensures FirstIndex(xs, x) == k
  {
    if k > 0 {
      assert xs[0] == xs[..k][0];
      assert xs[1..][k - 1] == x;
      assert xs[1..][..k - 1] == xs[..k][1..];
      FirstIndexUnique(xs[1..], x, k - 1);
    }
  }

  lemma FirstIndexPrefix(p: seq<string>, q: seq<string>, x: string)
    requires x in p
    ensures FirstIndex(p + q, x) == FirstIndex(p, x)
  {
    var j := FirstIndex(p, x);
    assert (p + q)[..j] == p[..j];
    FirstIndexUnique(p + q, x, j);
  }

  lemma FirstIndexAfter(p: seq<string>, x: string)
    requires x !in p
    ensures FirstIndex(p + [x], x) == |p|
  {
    assert (p + [x])[..|p|] == p;
    FirstIndexUnique(p + [x], x, |p|);
  }

  /** Deduplication keeps elements in the order of their first occurrence. */
  lemma {:induction false} DedupOrder(xs: seq<string>)
    ensures OrderedByFirstOccurrence(Dedup(xs), xs)
  {
    if xs != [] {
      var p := xs[..|xs| - 1];
      var last := xs[|xs| - 1];
      assert xs == p + [last];
      var d := Dedup(p);
      DedupOrder(p);
      forall x | x in d ensures FirstIndex(xs, x) == FirstIndex(p, x) {
        FirstIndexPrefix(p, [last], x);
      }
      if last !in d {
        FirstIndexAfter(p, last);
        var r := d + [last];
        forall i, j | 0 <= i < j < |r|
          ensures r[i] in xs && r[j] in xs && FirstIndex(xs, r[i]) < FirstIndex(xs, r[j])
        {
          assert r[i] == d[i];
          if j < |d| {
            assert r[j] == d[j];
          }
        }
      }
    }
  }

  /** Dropping empty strings keeps the relative order of first occurrences. */
  lemma {:induction false} NonEmptyOrder(xs: seq<string>, x: string, y: string)
    requires x in NonEmpty(xs) && y in NonEmpty(xs)
    requires FirstIndex(NonEmpty(xs), x) < FirstIndex(NonEmpty(xs), y)
    ensures FirstIndex(xs, x) < FirstIndex(xs, y)
  {
    var ne := NonEmpty(xs[1..]);
    if xs[0] == "" {
      NonEmptyOrder(xs[1..], x, y);
    } else if xs[0] != x {
      assert NonEmpty(xs) == [xs[0]] + ne;
      assert xs[0] != y;
      assert FirstIndex(NonEmpty(xs), x) == 1 + FirstIndex(ne, x);
      assert FirstIndex(NonEmpty(xs), y) == 1 + FirstIndex(ne, y);
      NonEmptyOrder(xs[1..], x, y);
    }
  }

  /** A code is parsed exactly when it is a non-empty trimmed, upper-cased
      comma-separated piece of the input. */
  lemma {:induction false} ParseCurrenciesMembers(input: string, c: string)
    ensures c in ParseCurrencies(input) <==>
      c != "" && exists k :: 0 <= k < |Split(input, ',')| && Normalize(Split(input, ',')[k]) == c
  {
    ParsedArePieces(input, c);
    if c in Pieces(input) {
      PieceWitness(input, c);
    }
    if exists k :: 0 <= k < |Split(input, ',')| && Normalize(Split(input, ',')[k]) == c {
      var k :| 0 <= k < |Split(input, ',')| && Normalize(Split(input, ',')[k]) == c;
      assert Pieces(input)[k] == c;
    }
  }

  lemma {:induction false} ParsedArePieces(input: string, c: string)
    ensures c in ParseCurrencies(input) <==> c in Pieces(input) && c != ""
  {
  }

  lemma {:induction false} PieceWitness(input: string, c: string)
    requires c in Pieces(input)
    ensures exists k :: 0 <= k < |Split(input, ',')| && Normalize(Split(input, ',')[k]) == c
  {
    var k :| 0 <= k < |Pieces(input)| && Pieces(input)[k] == c;
  }

  /** Parsed codes appear in the order in which they first occur among the
      normalised pieces. */
  lemma ParseCurrenciesOrder(input: string)
    ensures OrderedByFirstOccurrence(ParseCurrencies(input), Pieces(input))
  {
    var pieces := Pieces(input);
    var ne := NonEmpty(pieces);
    var codes := ParseCurrencies(input);
    DedupOrder(ne);
    forall i, j | 0 <= i < j < |codes|
      ensures codes[i] in pieces && codes[j] in pieces
           && FirstIndex(pieces, codes[i]) < FirstIndex(pieces, codes[j])
    {
      NonEmptyOrder(pieces, codes[i], codes[j]);
    }
  }

  /** Two duplicate-free lists with the same elements, both ordered by first
      occurrence in `ys`, are equal. */
  lemma {:induction false} OrderedUnique(a: seq<string>, b: seq<string>, ys: seq<string>)
    requires NoDuplicates(a) && NoDuplicates(b)
    requires forall x :: x in a <==> x in b
    requires OrderedByFirstOccurrence(a, ys) && OrderedByFirstOccurrence(b, ys)
    ensures a == b
  {
    if a == [] {
      HeadMember(b);
    } else {
      assert a[0] in b;
      SameHead(a, b, ys);
      SameTailMembers(a, b);
      OrderedUnique(a[1..], b[1..], ys);
      assert a == [a[0]] + a[1..];
      assert b == [b[0]] + b[1..];
    }
  }

  lemma HeadMember(b: seq<string>)
    ensures b == [] || b[0] in b
  {
  }

  /** Of two such lists, neither can start with a later element than the other. */
  lemma {:induction false} SameHead(a: seq<string>, b: seq<string>, ys: seq<string>)
    requires a != [] && b != []
    requires a[0] in b && b[0] in a
    requires OrderedByFirstOccurrence(a, ys) && OrderedByFirstOccurrence(b, ys)
    ensures a[0] == b[0]
  {
    var i :| 0 <= i < |a| && a[i] == b[0];
    var j :| 0 <= j < |b| && b[j] == a[0];
  }

  /** Removing a common, unrepeated head keeps the remaining elements equal. */
  lemma {:induction false} SameTailMembers(a: seq<string>, b: seq<string>)
    requires a != [] && b != [] && a[0] == b[0]
    requires NoDuplicates(a) && NoDuplicates(b)
    requires forall x :: x in a <==> x in b
    ensures forall x :: x in a[1..] <==> x in b[1..]
  {
    forall x ensures x in a[1..] ==> x in b[1..] {
      if x in a[1..] {
        var i :| 0 <= i < |a[1..]| && a[1..][i] == x;
        assert a[i + 1] != a[0];
        assert x in b;
        var j :| 0 <= j < |b| && b[j] == x;
        assert b[1..][j - 1] == x;
      }
    }
    forall x ensures x in b[1..] ==> x in a[1..] {
      if x in b[1..] {
        var j :| 0 <= j < |b[1..]| && b[1..][j] == x;
        assert b[j + 1] != b[0];
        assert x in a;
        var i :| 0 <= i < |a| && a[i] == x;
        assert a[1..][i - 1] == x;
      }
    }
  }

  /** The parse is the one and only duplicate-free list of the non-empty
      normalised pieces ordered by first occurrence. */
  lemma ParseCurrenciesUnique(input: string, codes: seq<string>)
    requires NoDuplicates(codes)
    requires forall c :: c in codes <==> c != "" && c in Pieces(input)
    requires OrderedByFirstOccurrence(codes, Pieces(input))
    ensures codes == ParseCurrencies(input)
  {
    ParseCurrenciesOrder(input);
    OrderedUnique(codes, ParseCurrencies(input), Pieces(input));
  }

  /** Filtering a list without empty strings changes nothing. */
  lemma {:induction false} NonEmptyUntouched(xs: seq<string>)
    requires "" !in xs
    ensures NonEmpty(xs) == xs
  {
    if xs != [] {
      NonEmptyUntouched(xs[1..]);
      assert [xs[0]] + xs[1..] == xs;
    }
  }

  /** Deduplicating a list without repetitions changes nothing. */
  lemma {:induction false} DedupUntouched(xs: seq<string>)
    requires NoDuplicates(xs)
    ensures Dedup(xs) == xs
  {
    if xs != [] {
      var p := xs[..|xs| - 1];
      DedupUntouched(p);
      assert xs[|xs| - 1] !in p;
      assert p + [xs[|xs| - 1]] == xs;
    }
  }

  /** A piece that is already a canonical code is left as it is. */
  lemma NormalizeCanonical(code: string)
    requires Canonical(code)
    ensures Normalize(code) == code
  {
    TrimUntouched(code);
    assert Upper(code) == code;
  }

  /** Mixed case, a stray blank and a repeated code. */
  lemma {:induction false} ParseExample(input: string)
    requires input == "usd, eur,EUR,gbp"
    ensures ParseCurrencies(input) == ["USD", "EUR", "GBP"]
  {
    ExamplePieces(input);
    ExampleDedup(Pieces(input));
  }

  lemma {:induction false} ExampleDedup(codes: seq<string>)
    requires codes == ["USD", "EUR", "EUR", "GBP"]
    ensures Dedup(NonEmpty(codes)) == ["USD", "EUR", "GBP"]
  {
    NonEmptyUntouched(codes);
    ExampleSet(codes);
  }

  lemma {:induction false} ExampleSet(codes: seq<string>)
    requires codes == ["USD", "EUR", "EUR", "GBP"]
    ensures Dedup(codes) == ["USD", "EUR", "GBP"]
  {
    DedupRepeatedSecond("USD", "EUR", "GBP");
  }

  /** A repeat of the second of three distinct codes is dropped. */
  lemma DedupRepeatedSecond(a: string, b: string, c: string)
    requires a != b && a != c && b != c
    ensures Dedup([a, b, b, c]) == [a, b, c]
  {
    DedupUntouched([a, b]);
    DedupSnoc([a, b], b);
    assert [a, b] + [b] == [a, b, b];
    DedupSnoc([a, b, b], c);
    assert [a, b, b] + [c] == [a, b, b, c];
  }

  /** The `Set` adds an element at the end unless it already holds it. */
  lemma DedupSnoc(p: seq<string>, x: string)
    ensures Dedup(p + [x]) == if x in Dedup(p) then Dedup(p) else Dedup(p) + [x]
  {
    assert (p + [x])[..|p + [x]| - 1] == p;
  }

  lemma {:induction false} ExamplePieces(input: string)
    requires input == "usd, eur,EUR,gbp"
    ensures Pieces(input) == ["USD", "EUR", "EUR", "GBP"]
  {
    var parts := Split(input, ',');
    var codes := ["USD", "EUR", "EUR", "GBP"];
    ExampleSplit(input);
    ExampleFirst(parts);
    ExampleSecond(parts);
    ExampleThird(parts);
    ExampleFourth(parts);
    assert forall k :: 0 <= k < |parts| ==> Normalize(parts[k]) == codes[k] by {
      forall k | 0 <= k < |parts| ensures Normalize(parts[k]) == codes[k] {
        assert k == 0 || k == 1 || k == 2 || k == 3;
      }
    }
    PiecesOf(input, parts, codes);
  }

  lemma {:induction false} ExampleSplit(input: string)
    requires input == "usd, eur,EUR,gbp"
    ensures Split(input, ',') == ["usd", " eur", "EUR", "gbp"]
  {
    var parts := ["usd", " eur", "EUR", "gbp"];
    assert Join(parts, ',') == input;
    SplitJoin(parts, ',');
  }

  lemma {:induction false} ExampleFirst(parts: seq<string>)
    requires parts == ["usd", " eur", "EUR", "gbp"]
    ensures Normalize(parts[0]) == "USD"
  {
    NormalizeWordUsd(parts[0]);
  }

  lemma {:induction false} ExampleSecond(parts: seq<string>)
    requires parts == ["usd", " eur", "EUR", "gbp"]
    ensures Normalize(parts[1]) == "EUR"
  {
    assert parts[1] == [' '] + "eur";
    NormalizeDropsLeadingWhite(parts[1]);
    NormalizeWordEur(parts[1][1..]);
  }

  lemma {:induction false} ExampleThird(parts: seq<string>)
    requires parts == ["usd", " eur", "EUR", "gbp"]
    ensures Normalize(parts[2]) == "EUR"
  {
    NormalizeCanonical(parts[2]);
  }

  lemma {:induction false} ExampleFourth(parts: seq<string>)
    requires parts == ["usd", " eur", "EUR", "gbp"]
    ensures Normalize(parts[3]) == "GBP"
  {
    NormalizeWordGbp(parts[3]);
  }

  lemma {:induction false} PiecesOf(input: string, parts: seq<string>, codes: seq<string>)
    requires Split(input, ',') == parts && |parts| == |codes|
    requires forall k :: 0 <= k < |parts| ==> Normalize(parts[k]) == codes[k]
    ensures Pieces(input) == codes
  {
  }

  /** White space in front of a code does not matter. */
  lemma {:induction false} NormalizeDropsLeadingWhite(p: string)
    requires p != [] && IsWhite(p[0])
    ensures Normalize(p) == Normalize(p[1..])
  {
    TrimLeadingWhite(p);
  }

  lemma {:induction false} NormalizeWordUsd(p: string)
    requires p == "usd"
    ensures Normalize(p) == "USD"
  {
    assert TrimStart(p) == p;
    assert TrimEnd(p) == p;
    var u := Upper(p);
    assert u[0] == 'U' && u[1] == 'S' && u[2] == 'D';
  }

  lemma {:induction false} NormalizeWordEur(p: string)
    requires p == "eur"
    ensures Normalize(p) == "EUR"
  {
    assert TrimStart(p) == p;
    assert TrimEnd(p) == p;
    var u := Upper(p);
    assert u[0] == 'E' && u[1] == 'U' && u[2] == 'R';
  }

  lemma {:induction false} NormalizeWordGbp(p: string)
    requires p == "gbp"
    ensures Normalize(p) == "GBP"
  {
    assert TrimStart(p) == p;
    assert TrimEnd(p) == p;
    var u := Upper(p);
    assert u[0] == 'G' && u[1] == 'B' && u[2] == 'P';
  }

  /** A comma-joined list of distinct canonical codes parses back to that
      list. */
  lemma {:induction false} ParseJoin(codes: seq<string>)
    requires codes != [] && NoDuplicates(codes)
    requires forall i :: 0 <= i < |codes| ==> Canonical(codes[i])
    ensures ParseCurrencies(Join(codes, ',')) == codes
  {
    var input := Join(codes, ',');
    SplitJoin(codes, ',');
    var pieces := Pieces(input);
    forall k | 0 <= k < |codes| ensures pieces[k] == codes[k] {
      NormalizeCanonical(codes[k]);
    }
    assert pieces == codes;
    NonEmptyUntouched(codes);
    DedupUntouched(codes);
  }

  /** The target text that reset restores parses to three codes. */
  lemma {:induction false} ParseDefault(input: string)
    requires input == "USD,EUR,GBP"
    ensures ParseCurrencies(input) == ["USD", "EUR", "GBP"]
  {
    var codes := ["USD", "EUR", "GBP"];
    assert Join(codes, ',') == input;
    assert Canonical("USD") && Canonical("EUR") && Canonical("GBP");
    ParseJoin(codes);
  }
}
