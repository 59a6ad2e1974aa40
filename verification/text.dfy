/** The JavaScript string operations the heuristics are built from, on strings
    as sequences of code points: `split('\n')`, `join('\n')`, `includes`,
    `startsWith` (Dafny's prefix relation `<=`), `trim` and an ASCII-only
    `toLowerCase`. */
module Text {

  /** The ECMAScript WhiteSpace and LineTerminator code points (the space
      separators of Unicode 15 among them): exactly what String.prototype.trim
      removes from both ends. */
  predicate IsWhitespace(c: char) {
    || '\t' <= c <= '\r'            // tab, line feed, vertical tab, form feed, carriage return
    || c == ' ' || c == '\U{00A0}' || c == '\U{1680}'
    || '\U{2000}' <= c <= '\U{200A}'
    || c == '\U{2028}' || c == '\U{2029}' || c == '\U{202F}' || c == '\U{205F}'
    || c == '\U{3000}' || c == '\U{FEFF}'
  }

  /** Some code point of s is not whitespace. */
  predicate HasNonWhitespace(s: string) {
    exists i :: 0 <= i < |s| && !IsWhitespace(s[i])
  }

  // ---------------------------------------------------------------- trim

  /** s is empty or starts and ends with a non-whitespace code point. */
  predicate TrimmedEnds(s: string) {
    s == [] || (!IsWhitespace(s[0]) && !IsWhitespace(s[|s| - 1]))
  }

  /** `s.trimStart()`: the longest suffix of s that does not start with whitespace. */
  function TrimStart(s: string): (r: string)
    ensures |r| <= |s| && r == s[|s| - |r|..]
    ensures r == [] || !IsWhitespace(r[0])
    ensures forall i :: 0 <= i < |s| - |r| ==> IsWhitespace(s[i])
  {
    if s != [] && IsWhitespace(s[0]) then TrimStart(s[1..]) else s
  }

  /** `s.trimEnd()`: the longest prefix of s that does not end with whitespace. */
  function TrimEnd(s: string): (r: string)
    ensures r <= s
    ensures r == [] || !IsWhitespace(r[|r| - 1])
    ensures forall i :: |r| <= i < |s| ==> IsWhitespace(s[i])
  {
    if s != [] && IsWhitespace(s[|s| - 1]) then TrimEnd(s[..|s| - 1]) else s
  }

  /** r is the block of s at position i, and everything before and after
      that block is whitespace. */
  predicate StrippedAt(s: string, r: string, i: nat) {
    && OccursAt(s, r, i)
    && (forall j :: 0 <= j < i ==> IsWhitespace(s[j]))
    && (forall j :: i + |r| <= j < |s| ==> IsWhitespace(s[j]))
  }

  /** r is s with some leading and some trailing whitespace removed, and nothing else. */
  predicate WhitespaceStripped(s: string, r: string) {
    exists i: nat :: i <= |s| && StrippedAt(s, r, i)
  }

  /** `s.trim()`: s without its leading and trailing whitespace. Only
      whitespace before and after the result is removed; the result is
      empty exactly when s is all whitespace, and otherwise starts and ends
      with a non-whitespace code point. */
  function Trim(s: string): (r: string)
    ensures WhitespaceStripped(s, r)
    ensures TrimmedEnds(r)
    ensures r == [] <==> !HasNonWhitespace(s)
    ensures Contains(s, r)
  {
    TrimBothEnds(s);
    TrimEnd(TrimStart(s))
  }

  lemma TrimBothEnds(s: string)
    ensures var r := TrimEnd(TrimStart(s));
      && WhitespaceStripped(s, r)
      && TrimmedEnds(r)
      && (r == [] <==> !HasNonWhitespace(s))
      && Contains(s, r)
  {
    TrimStrips(s);
    TrimBlock(s);
    TrimEmpty(s);
    TrimClean(s);
    ContainsAt(s, TrimEnd(TrimStart(s)), |s| - |TrimStart(s)|);
  }

  lemma TrimClean(s: string)
    ensures TrimmedEnds(TrimEnd(TrimStart(s)))
  {
    var t := TrimStart(s);
    var r := TrimEnd(t);
    if r != [] {
      assert r[0] == t[0];
    }
  }

  lemma TrimStrips(s: string)
    ensures WhitespaceStripped(s, TrimEnd(TrimStart(s)))
  {
    var t := TrimStart(s);
    StrippedAtSuffixPrefix(s, t, TrimEnd(t));
  }

  lemma StrippedAtSuffixPrefix(s: string, t: string, r: string)
    requires |t| <= |s| && t == s[|s| - |t|..] && r <= t
    requires forall j :: 0 <= j < |s| - |t| ==> IsWhitespace(s[j])
    requires forall j :: |r| <= j < |t| ==> IsWhitespace(t[j])
    ensures WhitespaceStripped(s, r)
  {
    var k: nat := |s| - |t|;
    PrefixOfSuffix(s, t, r);
    forall j | k + |r| <= j < |s| ensures IsWhitespace(s[j]) {
      assert s[j] == t[j - k];
    }
    assert StrippedAt(s, r, k);
  }

  lemma TrimBlock(s: string)
    ensures OccursAt(s, TrimEnd(TrimStart(s)), |s| - |TrimStart(s)|)
  {
    PrefixOfSuffix(s, TrimStart(s), TrimEnd(TrimStart(s)));
  }

  lemma PrefixOfSuffix(s: string, t: string, r: string)
    requires |t| <= |s| && t == s[|s| - |t|..] && r <= t
    ensures OccursAt(s, r, |s| - |t|)
  {
    var k := |s| - |t|;
    assert s[k..][..|r|] == s[k..k + |r|];
  }

  lemma TrimEmpty(s: string)
    ensures TrimEnd(TrimStart(s)) == [] <==> !HasNonWhitespace(s)
  {
    var t := TrimStart(s);
    var r := TrimEnd(t);
    var k := |s| - |t|;
    if r != [] {
      assert s[k] == r[0];
    }
  }

  /** Trimming twice is trimming once. */
  lemma TrimIdempotent(s: string)
    ensures Trim(Trim(s)) == Trim(s)
  {
    var r := Trim(s);
    assert TrimStart(r) == r;
    assert TrimEnd(r) == r;
  }

  // ------------------------------------------------------------ includes

  /** sub occurs in s starting at position i. */
  predicate OccursAt(s: string, sub: string, i: nat) {
    i + |sub| <= |s| && s[i..i + |sub|] == sub
  }

  /** `s.includes(sub)`: sub occurs in s as a contiguous block. */
  predicate Contains(s: string, sub: string)
    decreases |s|
  {
    sub <= s || (s != [] && Contains(s[1..], sub))
  }

  /** Contains agrees with the index-based definition of a substring. */
  lemma {:induction false} ContainsIff(s: string, sub: string)
    ensures Contains(s, sub) <==> exists i: nat :: OccursAt(s, sub, i)
  {
    OccursAtStart(s, sub);
    if sub <= s {
      assert OccursAt(s, sub, 0);
    } else if s != [] {
      ContainsIff(s[1..], sub);
      if Contains(s[1..], sub) {
        var i: nat :| OccursAt(s[1..], sub, i);
        OccursAtShift(s, sub, i);
      }
      if i: nat :| OccursAt(s, sub, i) {
        OccursAtShift(s, sub, i - 1);
      }
    } else {
      assert forall i: nat :: !OccursAt(s, sub, i);
    }
  }

  lemma OccursAtStart(s: string, sub: string)
    ensures OccursAt(s, sub, 0) <==> sub <= s
  {
  }

  lemma OccursAtShift(s: string, sub: string, i: nat)
    requires s != []
    ensures OccursAt(s[1..], sub, i) <==> OccursAt(s, sub, i + 1)
  {
    if i + 1 + |sub| <= |s| {
      assert s[1..][i..i + |sub|] == s[i + 1..i + 1 + |sub|];
    }
  }

  /** A block occurring at a known position of s is contained in s. */
  lemma ContainsAt(s: string, sub: string, i: nat)
    requires OccursAt(s, sub, i)
    ensures Contains(s, sub)
  {
    ContainsIff(s, sub);
  }

  /** Containment is transitive: a block of a block of s is a block of s. */
  lemma ContainsTransitive(s: string, mid: string, sub: string)
    requires Contains(s, mid) && Contains(mid, sub)
    ensures Contains(s, sub)
  {
    ContainsIff(s, mid);
    ContainsIff(mid, sub);
    var i: nat :| OccursAt(s, mid, i);
    var j: nat :| OccursAt(mid, sub, j);
    forall x | 0 <= x < |sub| ensures s[i + j + x] == sub[x] {
      assert sub[x] == mid[j + x] == s[i..i + |mid|][j + x];
    }
    assert s[i + j..i + j + |sub|] == sub;
    ContainsAt(s, sub, i + j);
  }

  /** A code point absent from s is absent from every block of s. */
  lemma ContainsKeepsOut(s: string, sub: string, c: char)
    requires Contains(s, sub) && c !in s
    ensures c !in sub
  {
    ContainsIff(s, sub);
    var i: nat :| OccursAt(s, sub, i);
    forall j | 0 <= j < |sub| ensures sub[j] != c {
      assert sub[j] == s[i + j];
    }
  }

  // --------------------------------------------------------- toLowerCase

  /** ASCII lower-casing; every other code point is left as it is. */
  function LowerChar(c: char): char {
    if 'A' <= c <= 'Z' then (c as int + 32) as char else c
  }

  /** `s.toLowerCase()`, restricted to the ASCII letters: every upper-case
      ASCII letter becomes its lower-case partner, every other code point is
      kept, and no upper-case ASCII letter is left. */
  function Lower(s: string): (r: string)
    ensures |r| == |s|
    ensures forall i :: 0 <= i < |s| ==> !('A' <= r[i] <= 'Z')
    ensures forall i :: 0 <= i < |s| && 'A' <= s[i] <= 'Z' ==> r[i] as int == s[i] as int + ('a' as int - 'A' as int)
    ensures forall i :: 0 <= i < |s| && !('A' <= s[i] <= 'Z') ==> r[i] == s[i]
  {
    seq(|s|, i requires 0 <= i < |s| => LowerChar(s[i]))
  }

  /** Lower-casing twice is lower-casing once. */
  lemma LowerIdempotent(s: string)
    ensures Lower(Lower(s)) == Lower(s)
  {
  }

  // ------------------------------------------------------- split and join

  /** `s.split('\n')`: the pieces between line feeds. There is always at
      least one piece (the empty string splits into one empty line), and no
      piece holds a line feed. */
  function Split(s: string): (r: seq<string>)
    ensures |r| >= 1
    ensures forall line :: line in r ==> '\n' !in line
  {
    if s == [] then [[]]
    else if s[0] == '\n' then [[]] + Split(s[1..])
    else
      var rest := Split(s[1..]);
      assert '\n' !in rest[0];
      [[s[0]] + rest[0]] + rest[1..]
  }

  /** `lines.join(sep)`. */
  function Join(lines: seq<string>, sep: char): string {
    if |lines| == 0 then []
    else if |lines| == 1 then lines[0]
    else lines[0] + [sep] + Join(lines[1..], sep)
  }

  /** Joining the pieces of a split gives back the text. */
  lemma {:induction false} JoinSplit(s: string)
    ensures Join(Split(s), '\n') == s
  {
    if s != [] {
      JoinSplit(s[1..]);
      var rest := Split(s[1..]);
      if s[0] != '\n' {
        var r := Split(s);
        assert r[0] == [s[0]] + rest[0] && r[1..] == rest[1..];
        if |rest| == 1 {
          assert Join(r, '\n') == [s[0]] + rest[0];
        } else {
          assert Join(r, '\n') == [s[0]] + rest[0] + ['\n'] + Join(rest[1..], '\n');
        }
      }
    }
  }

  lemma {:induction false} SplitLine(a: string)
    requires '\n' !in a
    ensures Split(a) == [a]
  {
    if a != [] {
      SplitLine(a[1..]);
      assert [a[0]] + a[1..] == a;
    }
  }

  lemma {:induction false} SplitLineThen(a: string, b: string)
    requires '\n' !in a
    ensures Split(a + ['\n'] + b) == [a] + Split(b)
  {
    if a == [] {
      assert a + ['\n'] + b == ['\n'] + b;
      assert (['\n'] + b)[1..] == b;
    } else {
      var s := a + ['\n'] + b;
      assert s[0] == a[0] && s[1..] == a[1..] + ['\n'] + b;
      SplitLineThen(a[1..], b);
      assert [a[0]] + a[1..] == a;
    }
  }

  /** Splitting the join of line-feed-free lines gives back the lines. */
  lemma {:induction false} SplitJoin(lines: seq<string>)
    requires |lines| >= 1
    requires forall line :: line in lines ==> '\n' !in line
    ensures Split(Join(lines, '\n')) == lines
  {
    if |lines| == 1 {
      SplitLine(lines[0]);
    } else {
      SplitJoin(lines[1..]);
      SplitLineThen(lines[0], Join(lines[1..], '\n'));
    }
  }

  /** The code points of a join are those of its lines, plus the separator. */
  lemma {:induction false} JoinChars(lines: seq<string>, sep: char, c: char)
    ensures (exists line :: line in lines && c in line) ==> c in Join(lines, sep)
    ensures c in Join(lines, sep) ==> c == sep || exists line :: line in lines && c in line
  {
    if |lines| > 1 {
      JoinChars(lines[1..], sep, c);
      if exists line :: line in lines && c in line {
        var line :| line in lines && c in line;
        if line != lines[0] {
          assert line in lines[1..];
        }
      }
      if c in Join(lines[1..], sep) && c != sep {
        var line :| line in lines[1..] && c in line;
        assert line in lines;
      }
    }
  }

  /** Each line is a block of the join. */
  lemma {:induction false} JoinContainsLine(lines: seq<string>, sep: char, k: nat)
    requires k < |lines|
    ensures Contains(Join(lines, sep), lines[k])
  {
    var j := Join(lines, sep);
    if |lines| == 1 {
      ContainsAt(j, lines[0], 0);
    } else if k == 0 {
      assert j[0..|lines[0]|] == lines[0];
      ContainsAt(j, lines[0], 0);
    } else {
      JoinContainsLine(lines[1..], sep, k - 1);
      var tail := Join(lines[1..], sep);
      assert j[|lines[0]| + 1..] == tail;
      ContainsAt(j, tail, |lines[0]| + 1);
      ContainsTransitive(j, tail, lines[k]);
    }
  }
}
