/** Searching, replacing and trimming strings. */
module Text {
  import opened Options

  predicate OccursAt(s: string, sub: string, i: nat) {
    i + |sub| <= |s| && s[i..i + |sub|] == sub
  }

  /** The leftmost occurrence. */
  function Find(s: string, sub: string): (r: Option<nat>)
    ensures r.Some? ==> r.value + |sub| <= |s|
  {
    if sub <= s then Some(0)
    else if s == [] then None
    else
      match Find(s[1..], sub)
      case None => None
      case Some(i) => Some(i + 1)
  }

  predicate Contains(s: string, sub: string) {
    Find(s, sub).Some?
  }

  predicate EndsWith(s: string, sub: string) {
    |sub| <= |s| && s[|s| - |sub|..] == sub
  }

  lemma {:induction false} FoundOccurs(s: string, sub: string)
    requires Find(s, sub).Some?
    ensures OccursAt(s, sub, Find(s, sub).value)
  {
    if !(sub <= s) {
      FoundOccurs(s[1..], sub);
      var i := Find(s[1..], sub).value;
      SliceOfTail(s, i, i + |sub|);
    }
  }

  lemma {:induction false} FoundByThen(s: string, sub: string, i: nat)
    requires OccursAt(s, sub, i)
    ensures Find(s, sub).Some? && Find(s, sub).value <= i
  {
    if !(sub <= s) {
      SliceOfTail(s, i - 1, i - 1 + |sub|);
      FoundByThen(s[1..], sub, i - 1);
    }
  }

  lemma FoundIsLeftmost(s: string, sub: string)
    ensures Find(s, sub).Some? ==> OccursAt(s, sub, Find(s, sub).value)
    ensures forall i: nat | OccursAt(s, sub, i) :: Find(s, sub).Some? && Find(s, sub).value <= i
  {
    hide Find;
    if Find(s, sub).Some? {
      FoundOccurs(s, sub);
    }
    forall i: nat | OccursAt(s, sub, i) ensures Find(s, sub).Some? && Find(s, sub).value <= i {
      FoundByThen(s, sub, i);
    }
  }

  lemma SliceOfTail(s: string, i: nat, j: nat)
    requires i <= j < |s|
    ensures s[1..][i..j] == s[i + 1..j + 1]
  {
  }

  /** An occurrence in a part is an occurrence in the whole. */
  lemma ContainsPart(a: string, x: string, b: string, sub: string)
    requires Contains(x, sub)
    ensures Contains(a + x + b, sub)
  {
    hide Find;
    FoundIsLeftmost(x, sub);
    var i := Find(x, sub).value;
    assert (a + x + b)[|a| + i..|a| + i + |sub|] == x[i..i + |sub|];
    FoundIsLeftmost(a + x + b, sub);
    assert OccursAt(a + x + b, sub, |a| + i);
  }

  lemma NothingContained(word: string)
    requires word != ""
    ensures !Contains("", word)
  {
  }

  lemma ContainsHere(s: string, word: string)
    requires word <= s
    ensures Contains(s, word)
  {
  }

  lemma ContainsLater(s: string, word: string)
    requires s != "" && !(word <= s)
    ensures Contains(s, word) <==> Contains(s[1..], word)
  {
  }

  lemma ContainsInTail(s: string, word: string)
    requires s != "" && Contains(s[1..], word)
    ensures Contains(s, word)
  {
  }

  lemma ContainsCons(c: char, rest: string, word: string)
    requires word != "" && Contains([c] + rest, word) && !(word <= [c] + rest)
    ensures Contains(rest, word)
  {
    assert ([c] + rest)[1..] == rest;
  }

  /** Characters that cannot open the word do not bring it in. */
  lemma {:induction false} PlainPrefixAddsNothing(plain: string, s: string, word: string)
    requires word != "" && word[0] !in plain
    ensures Contains(plain + s, word) <==> Contains(s, word)
  {
    hide Contains;
    if plain == "" {
      assert plain + s == s;
    } else {
      var whole := plain + s;
      assert whole[1..] == plain[1..] + s && whole[0] == plain[0];
      ContainsLater(whole, word);
      PlainPrefixAddsNothing(plain[1..], s, word);
    }
  }

  /** A word whose first character does not come back inside it cannot overlap itself. */
  predicate Unbordered(word: string) {
    word != "" && word[0] !in word[1..]
  }

  lemma ReadInside(s: string, word: string, i: nat, j: nat)
    requires OccursAt(s, word, i) && i < j < i + |word|
    ensures s[j] in word[1..]
  {
    assert s[j] == s[i..i + |word|][j - i] == word[1..][j - i - 1];
  }

  /** Where the text goes on with the word's first character, no occurrence begins before. */
  lemma NoneBefore(a: string, b: string, word: string)
    requires Unbordered(word) && !Contains(a, word) && (b == "" || b[0] == word[0])
    ensures Find(a + b, word).Some? ==> Find(a + b, word).value >= |a|
  {
    hide Find;
    var s := a + b;
    FoundIsLeftmost(s, word);
    if Find(s, word).Some? {
      var i := Find(s, word).value;
      if i < |a| < i + |word| {
        ReadInside(s, word, i, |a|);
      }
      assert i + |word| <= |a| ==> a[i..i + |word|] == s[i..i + |word|] && OccursAt(a, word, i);
      FoundIsLeftmost(a, word);
    }
  }

  /** In a text that continues with such a word, the first occurrence is there. */
  lemma FindAfter(a: string, word: string, rest: string)
    requires Unbordered(word) && !Contains(a, word)
    ensures Find(a + word + rest, word) == Some(|a|)
  {
    hide Find;
    var s := a + word + rest;
    assert s == a + (word + rest);
    NoneBefore(a, word + rest, word);
    FoundIsLeftmost(s, word);
    assert s[|a|..|a| + |word|] == word;
    assert OccursAt(s, word, |a|);
  }

  /** A position further on. */
  function Shift(r: Option<nat>, n: nat): Option<nat> {
    match r
    case None => None
    case Some(i) => Some(i + n)
  }

  lemma {:induction false} FindPastPlain(plain: string, s: string, word: string)
    requires word != "" && word[0] !in plain
    ensures Find(plain + s, word) == Shift(Find(s, word), |plain|)
  {
    if plain == "" {
      assert plain + s == s;
    } else {
      assert (plain + s)[1..] == plain[1..] + s && (plain + s)[0] == plain[0];
      FindPastPlain(plain[1..], s, word);
    }
  }

  lemma FindPastTag(tag: string, s: string, word: string)
    requires |tag| >= 2 && |word| >= 2 && tag[1] != word[1] && word[0] !in tag[1..]
    ensures Find(tag + s, word) == Shift(Find(s, word), |tag|)
  {
    var t := tag + s;
    assert t[1] == tag[1] && t[1..] == tag[1..] + s;
    FindPastPlain(tag[1..], s, word);
  }

  lemma FindInFront(a: string, b: string, word: string)
    requires Find(a, word).Some?
    ensures Find(a + b, word) == Find(a, word)
  {
    hide Find;
    var (s, i) := (a + b, Find(a, word).value);
    FoundIsLeftmost(a, word);
    FoundIsLeftmost(s, word);
    assert s[i..i + |word|] == a[i..i + |word|];
    assert OccursAt(s, word, i);
    var j := Find(s, word).value;
    assert a[j..j + |word|] == s[j..j + |word|];
    assert OccursAt(a, word, j);
  }

  lemma OccursBehind(a: string, b: string, word: string, i: nat)
    requires OccursAt(a + b, word, i) && i >= |a|
    ensures OccursAt(b, word, i - |a|)
  {
    var j := i - |a|;
    forall k | 0 <= k < |word| ensures b[j + k] == word[k] {
      assert (a + b)[i..i + |word|][k] == (a + b)[i + k];
    }
    assert b[j..j + |word|] == word;
  }

  lemma OccursAhead(a: string, b: string, word: string, i: nat)
    requires OccursAt(b, word, i)
    ensures OccursAt(a + b, word, |a| + i)
  {
    forall k | 0 <= k < |word| ensures (a + b)[|a| + i + k] == word[k] {
      assert b[i..i + |word|][k] == b[i + k];
    }
    assert (a + b)[|a| + i..|a| + i + |word|] == word;
  }

  /** Behind a text without the word, which cannot begin one at its end either, the search goes on. */
  lemma FindBehind(a: string, b: string, word: string)
    requires Unbordered(word) && !Contains(a, word) && (b == "" || b[0] == word[0])
    ensures Find(a + b, word) == Shift(Find(b, word), |a|)
  {
    hide Find, OccursAt;
    var s := a + b;
    NoneBefore(a, b, word);
    FoundIsLeftmost(s, word);
    FoundIsLeftmost(b, word);
    if Find(b, word).Some? {
      OccursAhead(a, b, word, Find(b, word).value);
    }
    if Find(s, word).Some? {
      OccursBehind(a, b, word, Find(s, word).value);
    }
  }

  /** The rightmost occurrence. */
  function RFind(s: string, sub: string): (r: Option<nat>)
    ensures r.Some? ==> r.value + |sub| <= |s|
  {
    if s == [] then if sub == [] then Some(0) else None
    else
      match RFind(s[1..], sub)
      case Some(i) => Some(i + 1)
      case None => if sub <= s then Some(0) else None
  }

  lemma {:induction false} RFoundIsRightmost(s: string, sub: string)
    ensures RFind(s, sub).Some? ==> OccursAt(s, sub, RFind(s, sub).value)
    ensures forall i: nat | OccursAt(s, sub, i) :: RFind(s, sub).Some? && i <= RFind(s, sub).value
  {
    if s != [] {
      RFoundIsRightmost(s[1..], sub);
      forall i: nat | OccursAt(s, sub, i) ensures RFind(s, sub).Some? && i <= RFind(s, sub).value {
        if i > 0 {
          assert s[1..][i - 1..i - 1 + |sub|] == s[i..i + |sub|];
          assert OccursAt(s[1..], sub, i - 1);
        }
      }
      match RFind(s[1..], sub)
      case Some(i) => assert s[1..][i..i + |sub|] == s[i + 1..i + 1 + |sub|];
      case None =>
    }
  }

  lemma OccurrenceIsContained(s: string, word: string, i: nat)
    requires OccursAt(s, word, i)
    ensures Contains(s, word)
  {
    FoundIsLeftmost(s, word);
  }

  /** Nothing behind it, the word is the last one. */
  lemma LastIsFound(before: string, word: string, after: string)
    requires Unbordered(word) && !Contains(after, word)
    ensures RFind(before + word + after, word) == Some(|before|)
  {
    hide Find, RFind;
    var s := before + word + after;
    RFoundIsRightmost(s, word);
    assert OccursAt(s, word, |before|);
    var j := RFind(s, word).value;
    if j >= |before + word| {
      OccursBehind(before + word, after, word, j);
      OccurrenceIsContained(after, word, j - |before + word|);
    } else {
      NoOverlap(s, word, |before|, j);
    }
  }

  /** Such a word does not overlap itself. */
  lemma NoOverlap(s: string, word: string, i: nat, j: nat)
    requires Unbordered(word) && OccursAt(s, word, i) && OccursAt(s, word, j) && i <= j < i + |word|
    ensures i == j
  {
    hide OccursAt;
    OccurrenceBegins(s, word, j);
    if i < j {
      ReadInside(s, word, i, j);
    }
  }

  lemma OccurrenceBegins(s: string, word: string, j: nat)
    requires word != "" && OccursAt(s, word, j)
    ensures j < |s| && s[j] == word[0]
  {
    assert s[j] == s[j..j + |word|][0];
  }

  /** Every occurrence replaced, from left to right, never inside a replacement. */
  function Replace(s: string, from: string, to: string): string
    requires from != ""
  {
    if s == "" then ""
    else if from <= s then to + Replace(s[|from|..], from, to)
    else [s[0]] + Replace(s[1..], from, to)
  }

  /** The White_Space property of Unicode; the zero-width space does not have it. */
  predicate IsSpace(c: char) {
    var n := c as int;
    9 <= n <= 13 || n == 0x20 || n == 0x85 || n == 0xA0 || n == 0x1680 || 0x2000 <= n <= 0x200A ||
    n == 0x2028 || n == 0x2029 || n == 0x202F || n == 0x205F || n == 0x3000
  }

  function TrimStart(s: string): (r: string)
    ensures |r| <= |s| && r == s[|s| - |r|..]
    ensures r != "" ==> !IsSpace(r[0])
  {
    if s != "" && IsSpace(s[0]) then TrimStart(s[1..]) else s
  }

  function TrimEnd(s: string): (r: string)
    ensures r <= s
    ensures r != "" ==> !IsSpace(r[|r| - 1])
  {
    if s != "" && IsSpace(s[|s| - 1]) then TrimEnd(s[..|s| - 1]) else s
  }

  function Trim(s: string): string {
    TrimEnd(TrimStart(s))
  }

  /** No white space at either end. */
  predicate IsTrimmed(s: string) {
    s != "" ==> !IsSpace(s[0]) && !IsSpace(s[|s| - 1])
  }

  lemma TrimIsSlice(s: string)
    ensures var i := |s| - |TrimStart(s)|; i + |Trim(s)| <= |s| && Trim(s) == s[i..i + |Trim(s)|]
  {
    hide IsSpace, TrimStart, TrimEnd;
  }

  lemma TrimmedExactly(s: string)
    ensures IsTrimmed(Trim(s))
    ensures Trim(s) == s <==> IsTrimmed(s)
  {
    hide IsSpace;
    TrimIsSlice(s);
  }

  /** Trimming brings no word in. */
  lemma TrimAddsNothing(s: string, sub: string)
    requires Contains(Trim(s), sub)
    ensures Contains(s, sub)
  {
    hide *;
    TrimIsSlice(s);
    var i := |s| - |TrimStart(s)|;
    var j := i + |Trim(s)|;
    ContainsPart(s[..i], s[i..j], s[j..], sub);
    assert s[..i] + s[i..j] + s[j..] == s;
  }

  // ---------------------------------------------------------------- bytes and digits

  function Utf8Length(c: char): (n: nat)
    ensures 1 <= n <= 4
  {
    if c as int < 0x80 then 1 else if c as int < 0x800 then 2 else if c as int < 0x10000 then 3 else 4
  }

  function Utf8Bytes(s: string): nat {
    if s == [] then 0 else Utf8Length(s[0]) + Utf8Bytes(s[1..])
  }

  lemma {:induction false} Utf8Concat(a: string, b: string)
    ensures Utf8Bytes(a + b) == Utf8Bytes(a) + Utf8Bytes(b)
  {
    if a == [] {
      assert a + b == b;
    } else {
      assert (a + b)[1..] == a[1..] + b;
      Utf8Concat(a[1..], b);
    }
  }

  predicate IsAscii(s: string) {
    forall k | 0 <= k < |s| :: s[k] as int < 0x80
  }

  lemma {:induction false} AsciiBytes(s: string)
    requires IsAscii(s)
    ensures Utf8Bytes(s) == |s|
  {
    if s != [] {
      AsciiBytes(s[1..]);
    }
  }

  function Digit(d: nat): char
    requires d < 10
  {
    ('0' as int + d) as char
  }

  function Decimal(n: nat): (r: string)
    ensures r != "" && forall k | 0 <= k < |r| :: '0' <= r[k] <= '9'
  {
    if n < 10 then [Digit(n)] else Decimal(n / 10) + [Digit(n % 10)]
  }

  function Pow10(k: nat): nat {
    if k == 0 then 1 else 10 * Pow10(k - 1)
  }

  /** A number has at most k digits exactly when it is below the k-th power of ten. */
  lemma {:induction false} DecimalLength(n: nat, k: nat)
    requires k > 0
    ensures |Decimal(n)| <= k <==> n < Pow10(k)
    decreases n
  {
    if n >= 10 && k > 1 {
      DecimalLength(n / 10, k - 1);
    } else if n >= 10 {
      assert Pow10(1) == 10;
    } else {
      AtLeastTen(k);
    }
  }

  lemma {:induction false} AtLeastTen(k: nat)
    requires k > 0
    ensures Pow10(k) >= 10
  {
    if k > 1 {
      AtLeastTen(k - 1);
    }
  }
}
