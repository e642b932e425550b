/** String helpers shared by the model: the parts of Rust's `str` API the core relies on.
    Strings are sequences of `char`; an index into one plays the role of a byte offset
    (the two agree on ASCII text). */
module Text {
  import opened Wrappers

  /** `char::is_whitespace`: the Unicode White_Space property. */
  predicate IsWhitespace(c: char) {
    var n := c as int;
    (0x09 <= n <= 0x0D) || n == 0x20 || n == 0x85 || n == 0xA0 || n == 0x1680
    || (0x2000 <= n <= 0x200A) || n == 0x2028 || n == 0x2029 || n == 0x202F
    || n == 0x205F || n == 0x3000
  }

  /** `char::is_ascii_whitespace`: space, tab, line feed, form feed, carriage return. */
  predicate IsAsciiWhitespace(c: char) {
    var n := c as int;
    n == 0x20 || n == 0x09 || n == 0x0A || n == 0x0C || n == 0x0D
  }

  lemma AsciiWhitespaceIsWhitespace(c: char)
    requires IsAsciiWhitespace(c)
    ensures IsWhitespace(c)
  {
  }

  predicate StartsWith(s: string, prefix: string) {
    |prefix| <= |s| && s[..|prefix|] == prefix
  }

  /** `s.strip_prefix(c).unwrap_or(s)`: drops exactly one leading `c`, if there is one. */
  function StripPrefix(s: string, c: char): (r: string)
    ensures |s| > 0 && s[0] == c ==> [c] + r == s
    ensures !(|s| > 0 && s[0] == c) ==> r == s
  {
    if |s| > 0 && s[0] == c then s[1..] else s
  }

  /** Removing a leading `c` from `[c] + s` gives back `s`, whatever `s` starts with. */
  lemma StripPrefixOfPrefixed(s: string, c: char)
    ensures StripPrefix([c] + s, c) == s
  {
  }

  /** `str::trim_start`. */
  function TrimStart(s: string): (r: string)
    ensures |r| <= |s| && r == s[|s| - |r|..]
    ensures forall i :: 0 <= i < |s| - |r| ==> IsWhitespace(s[i])
    ensures r == [] || !IsWhitespace(r[0])
  {
    if |s| > 0 && IsWhitespace(s[0]) then TrimStart(s[1..]) else s
  }

  /** `str::trim_end`. */
  function TrimEnd(s: string): (r: string)
    ensures |r| <= |s| && r == s[..|r|]
    ensures forall i :: |r| <= i < |s| ==> IsWhitespace(s[i])
    ensures r == [] || !IsWhitespace(r[|r| - 1])
  {
    if |s| > 0 && IsWhitespace(s[|s| - 1]) then TrimEnd(s[..|s| - 1]) else s
  }

  /** `r` is the infix of `s` starting at `k`, and everything around it is white space. */
  predicate BlankAround(s: string, k: nat, r: string) {
    && k + |r| <= |s| && r == s[k..k + |r|]
    && (forall i :: 0 <= i < k ==> IsWhitespace(s[i]))
    && (forall i :: k + |r| <= i < |s| ==> IsWhitespace(s[i]))
  }

  /** `str::trim`: the infix of `s` left after dropping leading and trailing white space. */
  function Trim(s: string): (r: string)
    ensures |r| <= |s|
    ensures exists k :: BlankAround(s, k, r)
    ensures r == [] || (!IsWhitespace(r[0]) && !IsWhitespace(r[|r| - 1]))
  {
    var t := TrimStart(s);
    BlankAroundInSuffix(s, t, TrimEnd(t));
    TrimEnd(t)
  }

  /** Blanks cut from the end of a suffix `t` of `s` whose dropped head is blank leave an
      infix of `s` with only blanks around it. */
  lemma BlankAroundInSuffix(s: string, t: string, r: string)
    requires |t| <= |s| && t == s[|s| - |t|..] && forall i :: 0 <= i < |s| - |t| ==> IsWhitespace(s[i])
    requires |r| <= |t| && r == t[..|r|] && forall i :: |r| <= i < |t| ==> IsWhitespace(t[i])
    ensures BlankAround(s, |s| - |t|, r)
  {
    var k := |s| - |t|;
    assert s[k..k + |r|] == t[..|r|];
    forall i | k + |r| <= i < |s| ensures IsWhitespace(s[i]) {
      assert s[i] == t[i - k];
    }
  }

  /** The trimmed string is empty exactly when every character is white space. */
  lemma TrimEmptyIff(s: string)
    ensures Trim(s) == [] <==> forall i :: 0 <= i < |s| ==> IsWhitespace(s[i])
  {
    var t := TrimStart(s);
    if Trim(s) == [] {
      forall i | 0 <= i < |s| ensures IsWhitespace(s[i]) {
        if i >= |s| - |t| {
          assert s[i] == t[i - (|s| - |t|)];
        }
      }
    } else {
      assert t != [];
      assert !IsWhitespace(t[0]) && t[0] == s[|s| - |t|];
    }
  }

  /** A string with no white space at either end trims to itself. */
  lemma TrimIdentity(s: string)
    requires s == [] || (!IsWhitespace(s[0]) && !IsWhitespace(s[|s| - 1]))
    ensures Trim(s) == s
  {
  }

  /** `s` contains `q` as a contiguous infix. */
  predicate Occurs(s: string, q: string)
    decreases |s|
  {
    |q| <= |s| && (s[..|q|] == q || Occurs(s[1..], q))
  }

  /** `str::replace`: every non-overlapping occurrence of `from`, scanning left to right,
      replaced by `to`. */
  function Replace(s: string, from: string, to: string): (r: string)
    requires from != []
    decreases |s|
  {
    if |s| < |from| then s
    else if s[..|from|] == from then to + Replace(s[|from|..], from, to)
    else [s[0]] + Replace(s[1..], from, to)
  }

  /** With no occurrence of `from`, replacing changes nothing. */
  lemma {:induction false} ReplaceIdentity(s: string, from: string, to: string)
    requires from != [] && !Occurs(s, from)
    ensures Replace(s, from, to) == s
    decreases |s|
  {
    if |s| >= |from| {
      ReplaceIdentity(s[1..], from, to);
    }
  }

  /** A prefix of `Replace(s, from, to)` that holds no character of `to` was copied from
      the front of `s`. */
  lemma {:induction false} PrefixOfReplace(s: string, from: string, to: string, w: string)
    requires from != [] && to != []
    requires |w| <= |Replace(s, from, to)| && Replace(s, from, to)[..|w|] == w
    requires forall i :: 0 <= i < |w| ==> w[i] !in to
    ensures |w| <= |s| && s[..|w|] == w
    decreases |s|
  {
    var r := Replace(s, from, to);
    if |s| < |from| || w == [] {
    } else if s[..|from|] == from {
      ReplaceOpensWithTo(s, from, to, w);
      assert false;
    } else {
      var r' := Replace(s[1..], from, to);
      assert r == [s[0]] + r';
      var w' := w[1..];
      assert r'[..|w'|] == r[1..|w|] == w';
      PrefixOfReplace(s[1..], from, to, w');
      assert s[..|w|] == [s[0]] + s[1..][..|w'|];
    }
  }

  /** When `s` starts with `from`, the result starts with `to`, so a non-empty prefix of it
      starts with a character of `to`. */
  lemma ReplaceOpensWithTo(s: string, from: string, to: string, w: string)
    requires from != [] && to != [] && StartsWith(s, from)
    requires 0 < |w| <= |Replace(s, from, to)| && Replace(s, from, to)[..|w|] == w
    ensures w[0] in to
  {
    assert Replace(s, from, to)[0] == to[0];
  }

  /** Replacing cannot create an occurrence of `q` when `to` shares no character with `q`:
      an occurrence in the result is a run of copied characters, hence one in `s`. */
  lemma {:induction false} ReplaceKeepsAbsent(s: string, from: string, to: string, q: string)
    requires from != [] && to != [] && q != []
    requires forall i :: 0 <= i < |q| ==> q[i] !in to
    requires !Occurs(s, q)
    ensures !Occurs(Replace(s, from, to), q)
    decreases |s|
  {
    var r := Replace(s, from, to);
    if |s| < |from| {
    } else if s[..|from|] == from {
      var r' := Replace(s[|from|..], from, to);
      assert !Occurs(s[|from|..], q) by { NotOccursSuffix(s, q, |from|); }
      ReplaceKeepsAbsent(s[|from|..], from, to, q);
      NoOccurrenceAcross(to, r', q);
    } else {
      var r' := Replace(s[1..], from, to);
      assert r == [s[0]] + r';
      ReplaceKeepsAbsent(s[1..], from, to, q);
      if |q| <= |r| && r[..|q|] == q {
        var w := q[1..];
        assert r'[..|w|] == w;
        PrefixOfReplace(s[1..], from, to, w);
        assert false;
      }
    }
  }

  /** `from` does not occur in `Replace(s, from, to)` when `to` shares no character with
      `from`: every occurrence has been replaced and none can be created. */
  lemma {:induction false} ReplaceRemovesAll(s: string, from: string, to: string)
    requires from != [] && to != []
    requires forall i :: 0 <= i < |from| ==> from[i] !in to
    ensures !Occurs(Replace(s, from, to), from)
    decreases |s|
  {
    var r := Replace(s, from, to);
    if |s| < |from| {
      NotOccursShort(s, from);
    } else if s[..|from|] == from {
      var r' := Replace(s[|from|..], from, to);
      ReplaceRemovesAll(s[|from|..], from, to);
      NoOccurrenceAcross(to, r', from);
    } else {
      var r' := Replace(s[1..], from, to);
      assert r == [s[0]] + r';
      ReplaceRemovesAll(s[1..], from, to);
      if |from| <= |r| && r[..|from|] == from {
        var w := from[1..];
        assert r'[..|w|] == w;
        PrefixOfReplace(s[1..], from, to, w);
        assert false;
      }
    }
  }

  lemma {:induction false} NotOccursShort(s: string, q: string)
    requires |s| < |q|
    ensures !Occurs(s, q)
  {
  }

  lemma {:induction false} NotOccursSuffix(s: string, q: string, k: nat)
    requires k <= |s| && !Occurs(s, q)
    ensures !Occurs(s[k..], q)
    decreases k
  {
    if k > 0 {
      assert s[1..][k - 1..] == s[k..];
      NotOccursSuffix(s[1..], q, k - 1);
    }
  }

  /** `q` cannot occur in `a + b` when it is absent from `b` and its first character is
      absent from `a`. */
  lemma {:induction false} NoOccurrenceAcross(a: string, b: string, q: string)
    requires q != [] && !Occurs(b, q)
    requires forall i :: 0 <= i < |q| ==> q[i] !in a
    ensures !Occurs(a + b, q)
    decreases |a|
  {
    if a == [] {
      assert a + b == b;
    } else {
      var ab := a + b;
      assert ab[0] == a[0] && a[0] in a;
      assert ab[1..] == a[1..] + b;
      forall i | 0 <= i < |q| ensures q[i] !in a[1..] {
        assert q[i] !in a;
      }
      NoOccurrenceAcross(a[1..], b, q);
    }
  }

  /** The parts of `parts` joined with `sep` between each pair. */
  function Join(parts: seq<string>, sep: string): string {
    if parts == [] then []
    else if |parts| == 1 then parts[0]
    else parts[0] + sep + Join(parts[1..], sep)
  }

  /** `split_once(c)`: the text before and after the first `c`, or None. */
  function SplitOnce(s: string, c: char): (r: Option<(string, string)>)
    ensures r.None? <==> c !in s
    ensures r.Some? ==> r.value.0 + [c] + r.value.1 == s && c !in r.value.0
  {
    if s == [] then None
    else if s[0] == c then (assert s == [c] + s[1..]; Some(([], s[1..])))
    else match SplitOnce(s[1..], c)
      case None => None
      case Some((a, b)) => (assert s == [s[0]] + s[1..]; Some(([s[0]] + a, b)))
  }

  /** Splitting at the first `c` finds the head that holds no `c`, whatever follows. */
  lemma {:induction false} SplitOnceAtFirst(a: string, c: char, b: string)
    requires c !in a
    ensures SplitOnce(a + [c] + b, c) == Some((a, b))
  {
    var s := a + [c] + b;
    if a == [] {
      assert s == [c] + b;
    } else {
      assert s[1..] == a[1..] + [c] + b;
      SplitOnceAtFirst(a[1..], c, b);
      assert [a[0]] + a[1..] == a;
    }
  }

  /** The decimal digits of `n`, as `format!("{n}")` prints it. */
  function NatToString(n: nat): (r: string)
    ensures |r| > 0
    ensures forall i :: 0 <= i < |r| ==> '0' <= r[i] <= '9'
    ensures DigitsValue(r) == n
    ensures n > 0 ==> r[0] != '0'
    decreases n
  {
    if n < 10 then [Digit(n)]
    else
      var r := NatToString(n / 10) + [Digit(n % 10)];
      assert r[..|r| - 1] == NatToString(n / 10);
      r
  }

  /** The number a string of decimal digits denotes, most significant digit first. */
  function DigitsValue(ds: string): nat
    requires forall i :: 0 <= i < |ds| ==> '0' <= ds[i] <= '9'
  {
    if ds == [] then 0
    else DigitsValue(ds[..|ds| - 1]) * 10 + (ds[|ds| - 1] as int - '0' as int)
  }

  function Digit(d: nat): (c: char)
    requires d < 10
    ensures '0' <= c <= '9' && c as int - '0' as int == d
  {
    ('0' as int + d) as char
  }

  // ------------------------------------------------- split_ascii_whitespace

  /** Index `j` lies in none of the ranges. */
  predicate Outside(ws: seq<(nat, nat)>, j: nat) {
    forall k :: 0 <= k < |ws| ==> !(ws[k].0 <= j < ws[k].1)
  }

  /** `ws` are ranges of `s` from index `i` on, non-empty and in order with gaps between
      them. */
  predicate Ordered(s: string, i: nat, ws: seq<(nat, nat)>) {
    && (forall k :: 0 <= k < |ws| ==> i <= ws[k].0 < ws[k].1 <= |s|)
    && (forall a, b :: 0 <= a < b < |ws| ==> ws[a].1 < ws[b].0)
  }

  /** `ws` are the maximal runs of non-ASCII-whitespace in `s` from index `i` on, as
      half-open ranges in order: what `split_ascii_whitespace` yields, with positions. */
  ghost predicate Tokenized(s: string, i: nat, ws: seq<(nat, nat)>) {
    && Ordered(s, i, ws)
    && (forall k, j :: 0 <= k < |ws| && ws[k].0 <= j < ws[k].1 ==> !IsAsciiWhitespace(s[j]))
    && (forall j :: i <= j < |s| && Outside(ws, j) ==> IsAsciiWhitespace(s[j]))
  }

  /** The end of the run of non-whitespace starting at `i`. */
  function WordEnd(s: string, i: nat): (e: nat)
    requires i <= |s|
    ensures i <= e <= |s|
    ensures forall j :: i <= j < e ==> !IsAsciiWhitespace(s[j])
    ensures e == |s| || IsAsciiWhitespace(s[e])
    decreases |s| - i
  {
    if i == |s| || IsAsciiWhitespace(s[i]) then i else WordEnd(s, i + 1)
  }

  /** The word ranges of `s` from index `i` on. */
  function WordsFrom(s: string, i: nat): (ws: seq<(nat, nat)>)
    requires i <= |s|
    ensures Ordered(s, i, ws)
    ensures forall k :: 0 <= k < |ws| ==> !IsAsciiWhitespace(s[ws[k].0])
    decreases |s| - i
  {
    if i == |s| then []
    else if IsAsciiWhitespace(s[i]) then WordsFrom(s, i + 1)
    else
      var e := WordEnd(s, i);
      var rest := WordsFrom(s, e);
      assert forall k :: 0 <= k < |rest| ==> e < rest[k].0;
      [(i, e)] + rest
  }

  /** Inside a range found by `WordsFrom` there is no white space. */
  lemma {:induction false} WordsHaveNoBlanks(s: string, i: nat)
    requires i <= |s|
    ensures var ws := WordsFrom(s, i);
      forall k, j :: 0 <= k < |ws| && ws[k].0 <= j < ws[k].1 ==> !IsAsciiWhitespace(s[j])
    decreases |s| - i
  {
    if i < |s| {
      if IsAsciiWhitespace(s[i]) {
        WordsHaveNoBlanks(s, i + 1);
        assert WordsFrom(s, i) == WordsFrom(s, i + 1);
      } else {
        var e := WordEnd(s, i);
        WordsHaveNoBlanks(s, e);
        var ws := WordsFrom(s, i);
        assert forall k :: 1 <= k < |ws| ==> ws[k] == WordsFrom(s, e)[k - 1];
      }
    }
  }

  /** Outside every range found by `WordsFrom` there is only white space. */
  lemma {:induction false} WordsLeaveOnlyBlanks(s: string, i: nat)
    requires i <= |s|
    ensures var ws := WordsFrom(s, i);
      forall j :: i <= j < |s| && Outside(ws, j) ==> IsAsciiWhitespace(s[j])
    decreases |s| - i
  {
    var ws := WordsFrom(s, i);
    if i == |s| {
    } else if IsAsciiWhitespace(s[i]) {
      WordsLeaveOnlyBlanks(s, i + 1);
      forall j | i <= j < |s| && Outside(ws, j) ensures IsAsciiWhitespace(s[j]) {
        if j > i { assert i + 1 <= j; }
      }
    } else {
      var e := WordEnd(s, i);
      var rest := WordsFrom(s, e);
      WordsLeaveOnlyBlanks(s, e);
      assert ws == [(i, e)] + rest;
      forall j | i <= j < |s| && Outside(ws, j) ensures IsAsciiWhitespace(s[j]) {
        assert ws[0] == (i, e);
        assert !(i <= j < e);
        assert Outside(rest, j) by {
          forall k | 0 <= k < |rest| ensures !(rest[k].0 <= j < rest[k].1) {
            assert ws[k + 1] == rest[k];
          }
        }
      }
    }
  }

  /** `WordsFrom` splits at ASCII white space exactly as `split_ascii_whitespace` does. */
  lemma WordsFromTokenized(s: string, i: nat)
    requires i <= |s|
    ensures Tokenized(s, i, WordsFrom(s, i))
  {
    WordsHaveNoBlanks(s, i);
    WordsLeaveOnlyBlanks(s, i);
  }

  /** The end of the word starting at `start` is the first blank after it. */
  lemma {:induction false} WordEndAt(s: string, start: nat, i: nat)
    requires start <= i <= |s|
    requires forall j :: start <= j < i ==> !IsAsciiWhitespace(s[j])
    requires i == |s| || IsAsciiWhitespace(s[i])
    ensures WordEnd(s, start) == i
    decreases i - start
  {
    if start < i {
      WordEndAt(s, start + 1, i);
    }
  }

  /** A blank starts no word. */
  lemma SkipBlank(s: string, i: nat)
    requires i < |s| && IsAsciiWhitespace(s[i])
    ensures WordsFrom(s, i) == WordsFrom(s, i + 1)
  {
  }

  /** A word from `start` ended by a blank or the end of `s` at `i` comes first, then the
      words after it. */
  lemma WordAt(s: string, start: nat, i: nat)
    requires start < i <= |s|
    requires forall j :: start <= j < i ==> !IsAsciiWhitespace(s[j])
    requires i == |s| || IsAsciiWhitespace(s[i])
    ensures WordsFrom(s, start) == [(start, i)] + WordsFrom(s, i)
  {
    WordEndAt(s, start, i);
    assert !IsAsciiWhitespace(s[start]);
  }

  /** A run of non-blanks to the end of `s` is the last word. */
  lemma LastWordFrom(s: string, start: nat)
    requires start < |s|
    requires forall j :: start <= j < |s| ==> !IsAsciiWhitespace(s[j])
    ensures WordsFrom(s, start) == [(start, |s|)]
  {
    WordAt(s, start, |s|);
    assert WordsFrom(s, |s|) == [];
  }

  /** The `k`-th word. */
  function Word(s: string, ws: seq<(nat, nat)>, k: nat): string
    requires k < |ws| && ws[k].0 <= ws[k].1 <= |s|
  {
    s[ws[k].0..ws[k].1]
  }
}
