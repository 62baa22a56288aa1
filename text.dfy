/** The string and list operations of Python that the reconciliation core relies
    on, restricted to ASCII: whitespace tests, lower-casing, substring search,
    `strip`, `split()`, `split(sep)`, `join`, `str(int)`, `list.count` and the
    key order of a dictionary filled by insertion. */
module Text {

  /** Python's `str.isspace` on ASCII: space, \t \n \v \f \r and the
      separators \x1c..\x1f. It is also what `\s` matches in a regex. */
  predicate IsSpace(c: char) {
    c == ' ' || 9 <= c as int <= 13 || 28 <= c as int <= 31
  }

  /** Python's `str.lower` on one ASCII character. */
  function LowerChar(c: char): char {
    if 'A' <= c <= 'Z' then (c as int + 32) as char else c
  }

  function Lower(s: string): string {
    seq(|s|, i requires 0 <= i < |s| => LowerChar(s[i]))
  }

  /** Python's `s.lower().startswith(p)` for a lower-case `p`. */
  predicate StartsWithIgnoringCase(s: string, p: string) {
    |p| <= |s| && Lower(s[..|p|]) == p
  }

  /** Python's `p in s` on strings: `p` occurs in `s` as a contiguous block,
      found by trying each start position in turn. */
  predicate Contains(s: string, p: string)
    decreases |s|
  {
    p <= s || (s != [] && Contains(s[1..], p))
  }

  /** `p` occurs in `s` starting at index `i`. */
  predicate OccursAt(s: string, p: string, i: nat) {
    i + |p| <= |s| && s[i..i + |p|] == p
  }

  /** Python's `s.startswith(p)`. */
  predicate StartsWith(s: string, p: string) {
    p <= s
  }

  // ---------------------------------------------------------------------------
  // Substring facts

  lemma {:induction false} ContainsAt(s: string, p: string, i: nat)
    requires OccursAt(s, p, i)
    ensures Contains(s, p)
    decreases i
  {
    if i == 0 {
      assert p <= s;
    } else {
      assert s[1..][i - 1..i - 1 + |p|] == s[i..i + |p|];
      ContainsAt(s[1..], p, i - 1);
    }
  }

  /** A string that contains `p` has a position where `p` occurs. */
  lemma {:induction false} ContainsWitness(s: string, p: string) returns (i: nat)
    requires Contains(s, p)
    ensures OccursAt(s, p, i)
    decreases |s|
  {
    if p <= s {
      i := 0;
    } else {
      var j := ContainsWitness(s[1..], p);
      assert s[1..][j..j + |p|] == s[j + 1..j + 1 + |p|];
      i := j + 1;
    }
  }

  lemma ContainsEmpty(s: string)
    ensures Contains(s, "")
  {
    ContainsAt(s, "", 0);
  }

  lemma ContainsSelf(s: string)
    ensures Contains(s, s)
  {
    ContainsAt(s, s, 0);
  }

  lemma SliceOfSlice(s: string, i: nat, k: nat, j: nat, l: nat)
    requires i <= k <= |s| && j <= l <= k - i
    ensures s[i..k][j..l] == s[i + j..i + l]
  {
    forall m | 0 <= m < l - j ensures s[i..k][j..l][m] == s[i + j..i + l][m] {
      assert s[i..k][j..l][m] == s[i..k][j + m] == s[i + j + m];
    }
  }

  /** A substring of a substring of `s` is a substring of `s`. */
  lemma ContainsTransitive(s: string, q: string, p: string)
    requires Contains(s, q) && Contains(q, p)
    ensures Contains(s, p)
  {
    var i := ContainsWitness(s, q);
    var j := ContainsWitness(q, p);
    SliceOfSlice(s, i, i + |q|, j, j + |p|);
    ContainsAt(s, p, i + j);
  }

  /** A string longer than `s` is not a substring of it. */
  lemma ContainsLonger(s: string, p: string)
    requires |s| < |p|
    ensures !Contains(s, p)
  {
    if Contains(s, p) {
      var i := ContainsWitness(s, p);
      assert false;
    }
  }

  /** A block of `s` written as a slice is a substring of `s`. */
  lemma ContainsSlice(s: string, i: nat, j: nat)
    requires i <= j <= |s|
    ensures Contains(s, s[i..j])
  {
    ContainsAt(s, s[i..j], i);
  }

  // ---------------------------------------------------------------------------
  // strip()

  /** The number of whitespace characters `s` starts with. */
  function LeadingSpaces(s: string): (n: nat)
    ensures n <= |s|
  {
    if s != [] && IsSpace(s[0]) then 1 + LeadingSpaces(s[1..]) else 0
  }

  /** The leading run counted by `LeadingSpaces` is whitespace and is maximal. */
  lemma {:induction false} LeadingSpacesSpec(s: string)
    ensures forall i :: 0 <= i < LeadingSpaces(s) ==> IsSpace(s[i])
    ensures LeadingSpaces(s) < |s| ==> !IsSpace(s[LeadingSpaces(s)])
    decreases |s|
  {
    if s != [] && IsSpace(s[0]) {
      LeadingSpacesSpec(s[1..]);
      forall i | 0 < i < LeadingSpaces(s) ensures IsSpace(s[i]) {
        assert s[i] == s[1..][i - 1];
      }
    }
  }

  /** Python's `s.lstrip()`. */
  function TrimStart(s: string): string {
    s[LeadingSpaces(s)..]
  }

  /** Python's `s.strip()`: whitespace dropped from both ends. */
  function Strip(s: string): (r: string)
    ensures |r| <= |s|
    decreases |s|
  {
    if s == [] then []
    else if IsSpace(s[0]) then Strip(s[1..])
    else if IsSpace(s[|s| - 1]) then Strip(s[..|s| - 1])
    else s
  }

  /** What `strip` keeps is a block of the input with no whitespace at
      either end, and it is empty exactly when the input is blank. */
  lemma {:induction false} StripSpec(s: string)
    ensures Contains(s, Strip(s))
    ensures Strip(s) == [] || (!IsSpace(Strip(s)[0]) && !IsSpace(Strip(s)[|Strip(s)| - 1]))
    ensures Strip(s) == [] <==> forall i :: 0 <= i < |s| ==> IsSpace(s[i])
    decreases |s|
  {
    if s == [] {
      ContainsEmpty(s);
    } else if IsSpace(s[0]) {
      var rest := s[1..];
      StripSpec(rest);
      ContainsSlice(s, 1, |s|);
      ContainsTransitive(s, rest, Strip(s));
      forall i | 0 < i < |s| ensures s[i] == rest[i - 1] { }
    } else if IsSpace(s[|s| - 1]) {
      var init := s[..|s| - 1];
      StripSpec(init);
      ContainsSlice(s, 0, |s| - 1);
      ContainsTransitive(s, init, Strip(s));
      assert init[0] == s[0];
    } else {
      ContainsSelf(s);
    }
  }

  /** A string with no whitespace at either end is its own strip. */
  lemma StripKeeps(s: string)
    requires s == [] || (!IsSpace(s[0]) && !IsSpace(s[|s| - 1]))
    ensures Strip(s) == s
  {
  }

  lemma {:induction false} StripSlice(s: string)
    ensures LeadingSpaces(s) + |Strip(s)| <= |s|
    ensures Strip(s) == s[LeadingSpaces(s)..LeadingSpaces(s) + |Strip(s)|]
    ensures forall i :: LeadingSpaces(s) + |Strip(s)| <= i < |s| ==> IsSpace(s[i])
    decreases |s|
  {
    if s == [] {
    } else if IsSpace(s[0]) {
      var rest := s[1..];
      StripSlice(rest);
      var b := LeadingSpaces(rest) + |Strip(rest)|;
      assert rest[LeadingSpaces(rest)..b] == s[LeadingSpaces(s)..b + 1];
      forall i | b + 1 <= i < |s| ensures IsSpace(s[i]) {
        assert s[i] == rest[i - 1];
      }
    } else if IsSpace(s[|s| - 1]) {
      var init := s[..|s| - 1];
      StripSlice(init);
      assert init[0] == s[0];
      forall i | |Strip(init)| <= i < |s| ensures IsSpace(s[i]) {
        if i < |s| - 1 {
          assert s[i] == init[i];
        }
      }
    }
  }

  /** `strip` removes exactly the leading whitespace run and a trailing
      whitespace run: the input is those two runs around the result. */
  lemma StripBlock(s: string)
    ensures LeadingSpaces(s) + |Strip(s)| <= |s|
    ensures s == s[..LeadingSpaces(s)] + Strip(s) + s[LeadingSpaces(s) + |Strip(s)|..]
    ensures forall i :: 0 <= i < LeadingSpaces(s) ==> IsSpace(s[i])
    ensures forall i :: LeadingSpaces(s) + |Strip(s)| <= i < |s| ==> IsSpace(s[i])
  {
    LeadingSpacesSpec(s);
    StripSlice(s);
    var a, b := LeadingSpaces(s), LeadingSpaces(s) + |Strip(s)|;
    assert s == s[..a] + s[a..b] + s[b..];
  }

  // ---------------------------------------------------------------------------
  // split() and " ".join(...): whitespace collapsing

  /** A word as `str.split()` yields it: non-empty, no whitespace. */
  predicate IsWord(w: string) {
    |w| > 0 && forall i :: 0 <= i < |w| ==> !IsSpace(w[i])
  }

  /** Length of the leading run of non-whitespace characters. */
  function WordLength(s: string): (n: nat)
    ensures n <= |s|
  {
    if s == [] || IsSpace(s[0]) then 0 else 1 + WordLength(s[1..])
  }

  /** The run counted by `WordLength` holds no whitespace and is maximal. */
  lemma {:induction false} WordLengthSpec(s: string)
    ensures forall i :: 0 <= i < WordLength(s) ==> !IsSpace(s[i])
    ensures WordLength(s) < |s| ==> IsSpace(s[WordLength(s)])
    decreases |s|
  {
    if s != [] && !IsSpace(s[0]) {
      WordLengthSpec(s[1..]);
      forall i | 0 < i < WordLength(s) ensures !IsSpace(s[i]) {
        assert s[i] == s[1..][i - 1];
      }
    }
  }

  /** Python's `s.split()` with no argument: the maximal runs of
      non-whitespace characters, in order. */
  function Words(s: string): (ws: seq<string>)
    decreases |s|
  {
    if s == [] then []
    else if IsSpace(s[0]) then Words(s[1..])
    else
      var n := WordLength(s);
      [s[..n]] + Words(s[n..])
  }

  /** Every piece `split()` yields is a word. */
  lemma {:induction false} WordsAreWords(s: string)
    ensures forall k :: 0 <= k < |Words(s)| ==> IsWord(Words(s)[k])
    decreases |s|
  {
    if s != [] {
      if IsSpace(s[0]) {
        WordsAreWords(s[1..]);
      } else {
        var n := WordLength(s);
        WordLengthSpec(s);
        WordsAreWords(s[n..]);
        var ws := Words(s);
        assert ws == [s[..n]] + Words(s[n..]);
        forall k | 0 <= k < |ws| ensures IsWord(ws[k]) {
          if k > 0 {
            assert ws[k] == Words(s[n..])[k - 1];
          }
        }
      }
    }
  }

  /** Python's `sep.join(ws)`. */
  function Join(ws: seq<string>, sep: string): string {
    if ws == [] then ""
    else if |ws| == 1 then ws[0]
    else ws[0] + sep + Join(ws[1..], sep)
  }

  /** Python's `" ".join(s.split())`. */
  function Collapse(s: string): string {
    Join(Words(s), " ")
  }

  /** No leading or trailing whitespace, and every whitespace character is a
      single space between two non-whitespace characters. */
  ghost predicate Canonical(t: string) {
    && (forall i :: 0 <= i < |t| && IsSpace(t[i]) ==> t[i] == ' ' && 0 < i < |t| - 1)
    && (forall i, j :: 0 <= i < j < |t| && j == i + 1 ==> !(IsSpace(t[i]) && IsSpace(t[j])))
  }

  lemma {:induction false} JoinWordsCanonical(ws: seq<string>)
    requires forall k :: 0 <= k < |ws| ==> IsWord(ws[k])
    ensures Canonical(Join(ws, " "))
    ensures ws != [] ==> Join(ws, " ") != []
  {
    if |ws| > 1 {
      JoinWordsCanonical(ws[1..]);
      var w, rest := ws[0], Join(ws[1..], " ");
      var t := w + " " + rest;
      assert Join(ws, " ") == t;
      forall i | 0 <= i < |t| && IsSpace(t[i])
        ensures t[i] == ' ' && 0 < i < |t| - 1
      {
        if i > |w| {
          assert t[i] == rest[i - |w| - 1];
        }
      }
      forall i, j | 0 <= i < j < |t| && j == i + 1
        ensures !(IsSpace(t[i]) && IsSpace(t[j]))
      {
        if i > |w| {
          assert t[i] == rest[i - |w| - 1] && t[j] == rest[j - |w| - 1];
        } else if i == |w| {
          assert t[j] == rest[0];
        }
      }
    }
  }

  lemma {:induction false} WordLengthOfWord(w: string, x: string)
    requires forall i :: 0 <= i < |w| ==> !IsSpace(w[i])
    requires x == [] || IsSpace(x[0])
    ensures WordLength(w + x) == |w|
    decreases |w|
  {
    if w == [] {
      assert w + x == x;
    } else {
      assert (w + x)[1..] == w[1..] + x;
      WordLengthOfWord(w[1..], x);
    }
  }

  /** `split()` gives back the words a single-space join was made from. */
  lemma {:induction false} WordsOfJoin(ws: seq<string>)
    requires forall k :: 0 <= k < |ws| ==> IsWord(ws[k])
    ensures Words(Join(ws, " ")) == ws
  {
    if ws != [] {
      var w := ws[0];
      var rest := if |ws| == 1 then "" else " " + Join(ws[1..], " ");
      var t := w + rest;
      assert Join(ws, " ") == t;
      WordLengthOfWord(w, rest);
      assert t[..|w|] == w && t[|w|..] == rest;
      assert Words(t) == [w] + Words(rest);
      if |ws| > 1 {
        WordsOfJoin(ws[1..]);
        assert rest[1..] == Join(ws[1..], " ");
        assert ws == [w] + ws[1..];
      }
    }
  }

  /** Collapsing keeps the words: `split()` of the collapsed string is
      `split()` of the original. */
  lemma CollapseWords(s: string)
    ensures Words(Collapse(s)) == Words(s)
  {
    WordsAreWords(s);
    WordsOfJoin(Words(s));
  }

  /** The collapsed form of any string is canonical. */
  lemma CollapseCanonical(s: string)
    ensures Canonical(Collapse(s))
  {
    WordsAreWords(s);
    JoinWordsCanonical(Words(s));
  }

  lemma CanonicalTail(t: string, m: nat)
    requires Canonical(t) && m <= |t|
    requires m < |t| ==> !IsSpace(t[m])
    ensures Canonical(t[m..])
  {
    var u := t[m..];
    forall i | 0 <= i < |u| && IsSpace(u[i])
      ensures u[i] == ' ' && 0 < i < |u| - 1
    {
      assert u[i] == t[m + i];
    }
    forall i, j | 0 <= i < j < |u| && j == i + 1
      ensures !(IsSpace(u[i]) && IsSpace(u[j]))
    {
      assert u[i] == t[m + i] && u[j] == t[m + j];
    }
  }

  lemma SplitAround(t: string, n: nat)
    requires n < |t| && t[n] == ' '
    ensures t == t[..n] + " " + t[n + 1..]
  {
    assert t == t[..n] + [t[n]] + t[n + 1..];
  }

  lemma {:induction false} WordsOfCanonical(t: string)
    requires Canonical(t)
    ensures Words(t) == [] <==> t == []
    ensures Join(Words(t), " ") == t
    decreases |t|
  {
    if t != [] {
      var n := WordLength(t);
      WordLengthSpec(t);
      if n < |t| {
        var u := t[n + 1..];
        assert t[n] == ' ' && n + 1 < |t|;
        assert !IsSpace(t[n + 1]);
        assert t[n..][1..] == u;
        CanonicalTail(t, n + 1);
        WordsOfCanonical(u);
        assert Words(t) == [t[..n]] + Words(u);
        SplitAround(t, n);
      } else {
        assert t[n..] == [] && t[..n] == t;
        assert Words([]) == [];
      }
    }
  }

  /** Collapsing and stripping leave a canonical string unchanged. */
  lemma CanonicalFixed(t: string)
    requires Canonical(t)
    ensures Collapse(t) == t
    ensures Strip(t) == t
  {
    WordsOfCanonical(t);
    if t != [] {
      assert !IsSpace(t[0]) && !IsSpace(t[|t| - 1]);
    }
    StripKeeps(t);
  }

  // ---------------------------------------------------------------------------
  // split(sep) and sep.join(...)

  /** Python's `s.split(sep)` for a one-character separator: always at least
      one piece, empty pieces kept. */
  function Split(s: string, sep: char): (r: seq<string>)
    ensures |r| >= 1
    ensures r[0] <= s
  {
    if s == [] then [""]
    else if s[0] == sep then [""] + Split(s[1..], sep)
    else
      var rest := Split(s[1..], sep);
      [[s[0]] + rest[0]] + rest[1..]
  }

  /** Joining the pieces of a split with the separator restores the input. */
  lemma {:induction false} JoinSplit(s: string, sep: char)
    ensures Join(Split(s, sep), [sep]) == s
  {
    if s != [] {
      var rest := Split(s[1..], sep);
      JoinSplit(s[1..], sep);
      if s[0] == sep {
        assert Split(s, sep)[1..] == rest;
      } else {
        var r := Split(s, sep);
        assert r[1..] == rest[1..];
        if |rest| > 1 {
          assert Join(rest, [sep]) == rest[0] + [sep] + Join(rest[1..], [sep]);
        }
      }
    }
  }

  lemma {:induction false} SplitWithout(w: string, rest: string, sep: char)
    requires sep !in w
    ensures Split(w, sep) == [w]
    ensures Split(w + [sep] + rest, sep) == [w] + Split(rest, sep)
  {
    if w != [] {
      SplitWithout(w[1..], rest, sep);
      assert w == [w[0]] + w[1..];
      assert (w + [sep] + rest)[1..] == w[1..] + [sep] + rest;
    } else {
      assert w + [sep] + rest == [sep] + rest;
    }
  }

  /** Splitting a join recovers the pieces when no piece holds the separator. */
  lemma {:induction false} SplitJoin(ps: seq<string>, sep: char)
    requires |ps| >= 1
    requires forall k :: 0 <= k < |ps| ==> sep !in ps[k]
    ensures Split(Join(ps, [sep]), sep) == ps
  {
    if |ps| == 1 {
      SplitWithout(ps[0], "", sep);
    } else {
      SplitJoin(ps[1..], sep);
      SplitWithout(ps[0], Join(ps[1..], [sep]), sep);
      assert ps == [ps[0]] + ps[1..];
    }
  }

  lemma {:induction false} SplitPieceContained(s: string, sep: char, k: nat)
    requires k < |Split(s, sep)|
    ensures Contains(s, Split(s, sep)[k])
  {
    var p := Split(s, sep)[k];
    if s == [] || (s[0] == sep && k == 0) {
      ContainsEmpty(s);
    } else if k == 0 {
      assert p == s[..|p|];
      ContainsSlice(s, 0, |p|);
    } else {
      var rest := Split(s[1..], sep);
      var k' := if s[0] == sep then k - 1 else k;
      assert p == rest[k'];
      SplitPieceContained(s[1..], sep, k');
      ContainsSlice(s, 1, |s|);
      assert s[1..|s|] == s[1..];
      ContainsTransitive(s, s[1..], p);
    }
  }

  /** Every piece of a split is a substring of the input. */
  lemma SplitPiecesContained(s: string, sep: char)
    ensures forall k :: 0 <= k < |Split(s, sep)| ==> Contains(s, Split(s, sep)[k])
  {
    forall k | 0 <= k < |Split(s, sep)| ensures Contains(s, Split(s, sep)[k]) {
      SplitPieceContained(s, sep, k);
    }
  }

  /** Python's `s.replace(old, new)` for one-character `old` and `new`. */
  function ReplaceChar(s: string, from: char, to: char): (r: string)
    ensures |r| == |s|
    ensures from != to ==> from !in r
  {
    if s == [] then "" else [if s[0] == from then to else s[0]] + ReplaceChar(s[1..], from, to)
  }

  // ---------------------------------------------------------------------------
  // str(n) for a non-negative integer

  function DigitChar(d: nat): char
    requires d < 10
  {
    ('0' as int + d) as char
  }

  /** Python's `str(n)` for `n >= 0`: decimal digits, most significant first. */
  function Decimal(n: nat): (r: string)
    ensures |r| >= 1
    ensures forall i :: 0 <= i < |r| ==> '0' <= r[i] <= '9'
  {
    if n < 10 then [DigitChar(n)] else Decimal(n / 10) + [DigitChar(n % 10)]
  }

  /** Reading the digits of a decimal string back as a number. */
  function ParseDecimal(s: string): nat {
    if s == [] then 0
    else
      var c := s[|s| - 1];
      10 * ParseDecimal(s[..|s| - 1]) + (if '0' <= c <= '9' then c as int - '0' as int else 0)
  }

  /** The decimal rendering of a count can be read back as that count. */
  lemma {:induction false} DecimalRoundTrip(n: nat)
    ensures ParseDecimal(Decimal(n)) == n
  {
    if n >= 10 {
      DecimalRoundTrip(n / 10);
      var s := Decimal(n);
      assert s[..|s| - 1] == Decimal(n / 10);
    }
  }

  // ---------------------------------------------------------------------------
  // Sequences

  /** Appending is associative; stated once so that long logs can be
      regrouped one step at a time. */
  lemma AppendAssoc<T>(a: seq<T>, b: seq<T>, c: seq<T>)
    ensures a + (b + c) == a + b + c
  {
  }

  // ---------------------------------------------------------------------------
  // list.count and the key order of an insertion-ordered dictionary

  /** Python's `xs.count(x)`. */
  function Count<T(==)>(xs: seq<T>, x: T): nat {
    if xs == [] then 0
    else Count(xs[..|xs| - 1], x) + (if xs[|xs| - 1] == x then 1 else 0)
  }

  lemma {:induction false} CountPositive<T>(xs: seq<T>, x: T)
    ensures Count(xs, x) > 0 <==> x in xs
  {
    if xs != [] {
      CountPositive(xs[..|xs| - 1], x);
      assert xs == xs[..|xs| - 1] + [xs[|xs| - 1]];
    }
  }

  lemma {:induction false} CountAppend<T>(xs: seq<T>, ys: seq<T>, x: T)
    ensures Count(xs + ys, x) == Count(xs, x) + Count(ys, x)
    decreases |ys|
  {
    if ys == [] {
      assert xs + ys == xs;
    } else {
      var init := ys[..|ys| - 1];
      CountAppend(xs, init, x);
      assert (xs + ys)[..|xs + ys| - 1] == xs + init;
    }
  }

  /** In a list without repeats every element occurs once. */
  lemma {:induction false} CountDistinct<T>(xs: seq<T>, x: T)
    requires Distinct(xs)
    ensures Count(xs, x) <= 1
  {
    if xs != [] {
      var init := xs[..|xs| - 1];
      CountDistinct(init, x);
      if xs[|xs| - 1] == x {
        CountPositive(init, x);
      }
    }
  }

  predicate Distinct<T(==)>(xs: seq<T>) {
    forall i, j :: 0 <= i < j < |xs| ==> xs[i] != xs[j]
  }

  /** Index of the first occurrence of `x` in `xs`. */
  function IndexOf<T(==)>(xs: seq<T>, x: T): (k: nat)
    requires x in xs
    ensures k < |xs| && xs[k] == x
    ensures forall j :: 0 <= j < k ==> xs[j] != x
  {
    if xs[0] == x then 0 else 1 + IndexOf(xs[1..], x)
  }

  /** The keys of a dictionary that receives `xs` one by one: each distinct
      element once, at the place of its first occurrence. */
  function Dedup<T(==)>(xs: seq<T>): seq<T> {
    if xs == [] then []
    else
      var d := Dedup(xs[..|xs| - 1]);
      if xs[|xs| - 1] in d then d else d + [xs[|xs| - 1]]
  }

  lemma IndexOfExtend<T>(xs: seq<T>, y: T, x: T)
    requires x in xs
    ensures IndexOf(xs + [y], x) == IndexOf(xs, x)
  {
    var k := IndexOf(xs, x);
    var k' := IndexOf(xs + [y], x);
    assert (xs + [y])[k] == x;
    assert xs[k'] == x by {
      if k' >= |xs| {
        assert false;
      }
    }
  }

  /** `Dedup` keeps exactly the elements of its input, each once, ordered by
      their first occurrence in the input. */
  lemma {:induction false} DedupSpec<T>(xs: seq<T>)
    ensures Distinct(Dedup(xs))
    ensures forall x :: x in Dedup(xs) ==> x in xs
    ensures forall x :: x in xs ==> x in Dedup(xs)
    ensures |Dedup(xs)| <= |xs|
    ensures forall i, j :: 0 <= i < j < |Dedup(xs)| ==>
              IndexOf(xs, Dedup(xs)[i]) < IndexOf(xs, Dedup(xs)[j])
  {
    if xs != [] {
      var init, x := xs[..|xs| - 1], xs[|xs| - 1];
      DedupSpec(init);
      assert xs == init + [x];
      var d := Dedup(init);
      forall y | y in d ensures IndexOf(xs, y) == IndexOf(init, y) {
        assert y in init;
        IndexOfExtend(init, x, y);
      }
    }
  }
}
