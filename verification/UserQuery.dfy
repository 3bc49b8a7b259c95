/** The query a user typed, wrapped in its tag and read back out of a message that may carry runtime metadata. */
module UserQuery {
  import opened Options
  import opened Text

  const SYSTEM_TAGS: seq<string> := [
    "user_info", "project_layout", "git_status", "fork-context", "system-reminder", "agent-memory",
    "system_reminder", "background_context", "command-name", "command-message", "command-args", "rules"
  ]

  const QUERY_OPEN := "<user_query>"
  const QUERY_CLOSE := "</user_query>"

  function OpenTag(tag: string): string { "<" + tag + ">" }

  function CloseTag(tag: string): string { "</" + tag + ">" }

  /** Every block of the tag is removed; an unclosed tag stays. */
  function StripTag(s: string, tag: string): (r: string)
    ensures |r| <= |s|
    decreases |s|
  {
    match Find(s, OpenTag(tag))
    case None => s
    case Some(start) =>
      match Find(s[start..], CloseTag(tag))
      case None => s
      case Some(rel) => StripTag(s[..start] + s[start + rel + |CloseTag(tag)|..], tag)
  }

  function StripTags(s: string, tags: seq<string>): (r: string)
    ensures |r| <= |s|
    decreases |tags|
  {
    if tags == [] then s else StripTags(StripTag(s, tags[0]), tags[1..])
  }

  function StripSystemTags(s: string): string {
    Trim(StripTags(s, SYSTEM_TAGS))
  }

  function ExtractUserQuery(text: string): string {
    var stripped := StripSystemTags(text);
    match Find(stripped, QUERY_OPEN)
    case None => stripped
    case Some(start) =>
      var content := stripped[start + |QUERY_OPEN|..];
      match Find(content, QUERY_CLOSE)
      case None => stripped
      case Some(end) => Trim(content[..end])
  }

  const WRAP_HEAD := QUERY_OPEN + "\n"
  const WRAP_FOOT := "\n" + QUERY_CLOSE

  function WrapUserQuery(q: string): string {
    WRAP_HEAD + q + WRAP_FOOT
  }

  // ---------------------------------------------------------------- reading through the wrapper

  lemma FindPastOther(c: char, s: string, word: string)
    requires !(word <= [c] + s)
    ensures Find([c] + s, word) == Shift(Find(s, word), 1)
  {
    assert ([c] + s)[1..] == s;
  }

  lemma ReachesBehind(word: string, a: string, b: string)
    requires word <= a + b && |word| > |a|
    ensures b != "" && b[0] in word
  {
    assert word[|a|] == (a + b)[|a|] == b[0];
  }

  /** A word that cannot reach into the foot is found where it is found without the foot. */
  lemma {:induction false} FindBeforeFoot(q: string, foot: string, word: string)
    requires foot != "" && foot[0] !in word && Find(foot, word) == None && word != ""
    ensures Find(q + foot, word) == Find(q, word)
  {
    if q == "" {
      assert q + foot == foot;
    } else {
      assert (q + foot)[1..] == q[1..] + foot;
      FindBeforeFoot(q[1..], foot, word);
      if word <= q + foot && |word| > |q| {
        ReachesBehind(word, q, foot);
      }
    }
  }

  /** A tag that the wrapper itself does not contain. */
  predicate IsForeign(word: string) {
    word != "" && word[0] == '<' && '\n' !in word && !(word <= QUERY_OPEN) && !(word <= QUERY_CLOSE)
  }

  lemma HeadHidesNothing(s: string, word: string)
    requires IsForeign(word)
    ensures Find(WRAP_HEAD + s, word) == Shift(Find(s, word), |WRAP_HEAD|)
  {
    hide Find;
    var rest := QUERY_OPEN[1..] + "\n";
    assert WRAP_HEAD + s == ['<'] + (rest + s);
    if word <= ['<'] + (rest + s) {
      NoNewlineWithin(word, QUERY_OPEN, s);
    }
    FindPastOther('<', rest + s, word);
    FindPastPlain(rest, s, word);
  }

  lemma NoNewlineWithin(word: string, line: string, s: string)
    requires '\n' !in word && word <= line + "\n" + s
    ensures word <= line
  {
    if |word| > |line| {
      assert line + "\n" + s == line + ("\n" + s);
      ReachesBehind(word, line, "\n" + s);
    }
  }

  lemma FootHidesNothing(q: string, word: string)
    requires IsForeign(word)
    ensures Find(q + WRAP_FOOT, word) == Find(q, word)
  {
    hide Find;
    var rest := QUERY_CLOSE[1..];
    assert WRAP_FOOT == "\n" + (['<'] + rest);
    assert ['<'] + rest == QUERY_CLOSE;
    FindPastPlain("\n", ['<'] + rest, word);
    FindPastOther('<', rest, word);
    assert rest + "" == rest;
    FindPastPlain(rest, "", word);
    FindInNothing(word);
    FindBeforeFoot(q, WRAP_FOOT, word);
  }

  lemma FindInNothing(word: string)
    requires word != ""
    ensures Find("", word) == None
  {
  }

  predicate IsSystemTag(tag: string) {
    tag != "" && tag[0] != '/' && '\n' !in tag && tag != "user_query"
  }

  lemma SystemTagIsForeign(tag: string)
    requires IsSystemTag(tag)
    ensures IsForeign(OpenTag(tag)) && IsForeign(CloseTag(tag))
  {
    assert OpenTag(tag)[1] == tag[0] && CloseTag(tag)[1] == '/';
    var n := |tag|;
    assert OpenTag(tag)[n + 1] == '>' && OpenTag(tag)[1..n + 1] == tag;
    assert CloseTag(tag)[n + 2] == '>' && CloseTag(tag)[2..n + 2] == tag;
    assert QUERY_OPEN[1..11] == "user_query" && QUERY_CLOSE[2..12] == "user_query";
    OnlyBracketEnds(n);
  }

  lemma OnlyBracketEnds(n: nat)
    ensures n + 1 < |QUERY_OPEN| && QUERY_OPEN[n + 1] == '>' ==> n == 10
    ensures n + 2 < |QUERY_CLOSE| && QUERY_CLOSE[n + 2] == '>' ==> n == 10
  {
  }

  lemma CutInsideWrap(q: string, i: nat, j: nat)
    requires i <= j <= |q|
    ensures |WrapUserQuery(q)| == |WRAP_HEAD| + |q| + |WRAP_FOOT|
    ensures WrapUserQuery(q)[..|WRAP_HEAD| + i] + WrapUserQuery(q)[|WRAP_HEAD| + j..] == WrapUserQuery(q[..i] + q[j..])
    ensures WrapUserQuery(q)[|WRAP_HEAD| + i..] == q[i..] + WRAP_FOOT
  {
    var s := WrapUserQuery(q);
    assert s[..|WRAP_HEAD| + i] == WRAP_HEAD + q[..i] && s[|WRAP_HEAD| + j..] == q[j..] + WRAP_FOOT;
  }

  lemma StripStep(s: string, tag: string)
    ensures StripTag(s, tag) ==
            match Find(s, OpenTag(tag))
            case None => s
            case Some(start) =>
              match Find(s[start..], CloseTag(tag))
              case None => s
              case Some(rel) => StripTag(s[..start] + s[start + rel + |CloseTag(tag)|..], tag)
  {
    hide Find, OpenTag, CloseTag;
  }

  /** Stripping a metadata tag works inside the wrapper and leaves the wrapper alone. */
  lemma {:induction false} StripInsideWrap(q: string, tag: string)
    requires IsSystemTag(tag)
    ensures StripTag(WrapUserQuery(q), tag) == WrapUserQuery(StripTag(q, tag))
    decreases |q|
  {
    hide Find, StripTag, IsForeign, OpenTag, CloseTag, WrapUserQuery;
    var s := WrapUserQuery(q);
    SystemTagIsForeign(tag);
    StripStep(s, tag);
    StripStep(q, tag);
    WrapIs(q);
    HeadHidesNothing(q + WRAP_FOOT, OpenTag(tag));
    FootHidesNothing(q, OpenTag(tag));
    match Find(q, OpenTag(tag))
    case None =>
    case Some(i) =>
      CutInsideWrap(q, i, i);
      FootHidesNothing(q[i..], CloseTag(tag));
      match Find(q[i..], CloseTag(tag)) {
        case None =>
        case Some(rel) =>
          var j := i + rel + |CloseTag(tag)|;
          CutInsideWrap(q, i, j);
          CloseIsLong(tag);
          StripInsideWrap(q[..i] + q[j..], tag);
      }
  }

  lemma WrapIs(q: string)
    ensures WrapUserQuery(q) == WRAP_HEAD + (q + WRAP_FOOT)
  {
  }

  lemma CloseIsLong(tag: string)
    ensures |CloseTag(tag)| >= 3
  {
  }

  predicate AreSystemTags(tags: seq<string>) {
    forall k | 0 <= k < |tags| :: IsSystemTag(tags[k])
  }

  lemma {:induction false} StripAllInsideWrap(q: string, tags: seq<string>)
    requires AreSystemTags(tags)
    ensures StripTags(WrapUserQuery(q), tags) == WrapUserQuery(StripTags(q, tags))
    decreases |tags|
  {
    hide StripTag, IsSystemTag, WrapUserQuery;
    if tags != [] {
      StripInsideWrap(q, tags[0]);
      StripAllInsideWrap(StripTag(q, tags[0]), tags[1..]);
    }
  }

  // ---------------------------------------------------------------- extraction after wrapping

  /** The text up to the first occurrence of the word. */
  function Before(s: string, word: string): (r: string)
    ensures |r| <= |s|
  {
    match Find(s, word)
    case None => s
    case Some(i) => s[..i]
  }

  lemma WrapIsTrimmed(q: string)
    ensures Trim(WrapUserQuery(q)) == WrapUserQuery(q)
  {
    hide Trim;
    var s := WrapUserQuery(q);
    assert s[0] == '<' && s[|s| - 1] == WRAP_FOOT[|WRAP_FOOT| - 1] == '>';
    TrimmedExactly(s);
  }

  lemma {:induction false} TrimStartKeepsFoot(x: string, c: char)
    ensures TrimStart(x + [c]) == if TrimStart(x) == "" && IsSpace(c) then "" else TrimStart(x) + [c]
  {
    if x == "" {
      assert x + [c] == [c];
    } else {
      assert (x + [c])[1..] == x[1..] + [c];
      TrimStartKeepsFoot(x[1..], c);
    }
  }

  lemma TrimPastNewlines(x: string)
    ensures Trim("\n" + x) == Trim(x)
    ensures Trim(x + "\n") == Trim(x)
  {
    assert ("\n" + x)[1..] == x;
    TrimStartKeepsFoot(x, '\n');
    var t := TrimStart(x);
    assert (t + "\n")[..|t|] == t;
  }

  lemma CloseIsUnbordered()
    ensures Unbordered(QUERY_CLOSE) && '\n' !in QUERY_CLOSE
  {
  }

  /** What stands between the tags of a wrapped text. */
  lemma ContentOfWrap(q: string)
    ensures var content := "\n" + q + WRAP_FOOT;
            match Find(content, QUERY_CLOSE)
            case None => false
            case Some(end) => Trim(content[..end]) == Trim(Before(q, QUERY_CLOSE))
  {
    hide Find, Trim;
    var content := "\n" + q + WRAP_FOOT;
    CloseIsUnbordered();
    assert content == "\n" + (q + WRAP_FOOT);
    FindPastPlain("\n", q + WRAP_FOOT, QUERY_CLOSE);
    match Find(q, QUERY_CLOSE)
    case Some(i) =>
      FirstStaysFirst(q, WRAP_FOOT, QUERY_CLOSE);
      assert content[..i + 1] == "\n" + q[..i];
      TrimPastNewlines(q[..i]);
    case None =>
      assert q + WRAP_FOOT == (q + "\n") + QUERY_CLOSE + "";
      NewlineEndsNothing(q);
      FindAfter(q + "\n", QUERY_CLOSE, "");
      assert content[..|q| + 2] == "\n" + (q + "\n");
      TrimPastNewlines(q + "\n");
      TrimPastNewlines(q);
  }

  lemma FirstStaysFirst(q: string, foot: string, word: string)
    requires Find(q, word).Some?
    ensures Find(q + foot, word) == Find(q, word)
  {
    hide Find;
    FoundIsLeftmost(q, word);
    FoundIsLeftmost(q + foot, word);
    var i := Find(q, word).value;
    assert (q + foot)[i..i + |word|] == q[i..i + |word|];
    assert OccursAt(q + foot, word, i);
    var j := Find(q + foot, word).value;
    assert q[j..j + |word|] == (q + foot)[j..j + |word|];
    assert OccursAt(q, word, j);
  }

  lemma NewlineEndsNothing(q: string)
    requires !Contains(q, QUERY_CLOSE)
    ensures !Contains(q + "\n", QUERY_CLOSE)
  {
    FindBeforeFoot(q, "\n", QUERY_CLOSE);
  }

  lemma TagsAreSystemTags()
    ensures AreSystemTags(SYSTEM_TAGS)
  {
    forall k | 0 <= k < |SYSTEM_TAGS| ensures IsSystemTag(SYSTEM_TAGS[k]) {
      TagIsSystemTag(k);
    }
  }

  lemma TagIsSystemTag(k: nat)
    requires k < |SYSTEM_TAGS|
    ensures IsSystemTag(SYSTEM_TAGS[k])
  {
  }

  /**
   Reading a wrapped text back: its metadata blocks, everything behind a closing tag, and the outer space are gone.
   */
  lemma WrappedReadsAs(q: string)
    ensures ExtractUserQuery(WrapUserQuery(q)) == Trim(Before(StripTags(q, SYSTEM_TAGS), QUERY_CLOSE))
  {
    hide Find, Trim, StripTags, AreSystemTags, Before;
    TagsAreSystemTags();
    StripAllInsideWrap(q, SYSTEM_TAGS);
    var body := StripTags(q, SYSTEM_TAGS);
    var s := WrapUserQuery(body);
    WrapIsTrimmed(body);
    ContentOfWrap(body);
    NothingContained(QUERY_OPEN);
    assert s == "" + QUERY_OPEN + ("\n" + body + WRAP_FOOT);
    OpenIsUnbordered();
    FindAfter("", QUERY_OPEN, "\n" + body + WRAP_FOOT);
    assert s[|QUERY_OPEN|..] == "\n" + body + WRAP_FOOT;
  }

  lemma OpenIsUnbordered()
    ensures Unbordered(QUERY_OPEN)
  {
  }

  // ---------------------------------------------------------------- which queries survive the round trip

  /** An opening tag with a closing tag somewhere behind it. */
  predicate HasBlock(q: string, tag: string) {
    match Find(q, OpenTag(tag))
    case None => false
    case Some(i) => Contains(q[i..], CloseTag(tag))
  }

  lemma StripKeepsExactly(q: string, tag: string)
    ensures StripTag(q, tag) == q <==> !HasBlock(q, tag)
    ensures HasBlock(q, tag) ==> |StripTag(q, tag)| < |q|
  {
    hide Find, StripTag;
    StripStep(q, tag);
    CloseIsLong(tag);
  }

  lemma {:induction false} StripAllKeepsExactly(q: string, tags: seq<string>)
    ensures StripTags(q, tags) == q <==> forall k | 0 <= k < |tags| :: !HasBlock(q, tags[k])
    decreases |tags|
  {
    hide StripTag, HasBlock;
    if tags != [] {
      StripKeepsExactly(q, tags[0]);
      if HasBlock(q, tags[0]) {
        assert |StripTags(q, tags)| < |q|;
      } else {
        StripAllKeepsExactly(q, tags[1..]);
        assert forall k | 1 <= k < |tags| :: tags[k] == tags[1..][k - 1];
      }
    }
  }

  lemma BeforeKeepsExactly(q: string, word: string)
    requires word != ""
    ensures Before(q, word) == q <==> !Contains(q, word)
  {
    hide Find;
  }

  /** No space at the ends, no closing query tag, no complete metadata block. */
  ghost predicate IsPlainQuery(q: string) {
    && IsTrimmed(q)
    && !Contains(q, QUERY_CLOSE)
    && forall k | 0 <= k < |SYSTEM_TAGS| :: !HasBlock(q, SYSTEM_TAGS[k])
  }

  lemma TrimShortens(s: string)
    ensures Trim(s) == s || |Trim(s)| < |s|
  {
    hide *;
    TrimIsSlice(s);
    var i := |s| - |TrimStart(s)|;
    assert |Trim(s)| == |s| ==> i == 0 && s[0..|s|] == s;
  }

  /** Wrapping and reading back gives the query itself for the plain queries and for no others; else it gets shorter. */
  lemma WrapRoundTrip(q: string)
    ensures ExtractUserQuery(WrapUserQuery(q)) == q <==> IsPlainQuery(q)
    ensures !IsPlainQuery(q) ==> |ExtractUserQuery(WrapUserQuery(q))| < |q|
  {
    hide Trim, Before, StripTags, HasBlock, Contains, ExtractUserQuery, WrapUserQuery, IsTrimmed;
    WrappedReadsAs(q);
    var body := StripTags(q, SYSTEM_TAGS);
    var kept := Before(body, QUERY_CLOSE);
    StripAllKeepsExactly(q, SYSTEM_TAGS);
    BeforeKeepsExactly(q, QUERY_CLOSE);
    TrimmedExactly(q);
    StripAllShortens(q, SYSTEM_TAGS);
    BeforeShortens(body, QUERY_CLOSE);
    TrimShortens(kept);
  }

  lemma BeforeShortens(s: string, word: string)
    ensures Before(s, word) == s || |Before(s, word)| < |s|
  {
    hide Find;
  }

  lemma {:induction false} StripAllShortens(q: string, tags: seq<string>)
    ensures StripTags(q, tags) == q || |StripTags(q, tags)| < |q|
    decreases |tags|
  {
    hide StripTag, HasBlock;
    if tags != [] {
      StripKeepsExactly(q, tags[0]);
      StripAllShortens(StripTag(q, tags[0]), tags[1..]);
    }
  }

  // ---------------------------------------------------------------- what is taken out, and what is taken

  lemma TagsAreUnbordered(tag: string)
    requires '<' !in tag
    ensures Unbordered(OpenTag(tag)) && Unbordered(CloseTag(tag))
  {
  }

  /** A block goes from its opening to the next closing tag, and the search begins again. */
  lemma BlockGoes(a: string, b: string, c: string, tag: string)
    requires tag != "" && tag[0] != '/' && '<' !in tag
    requires !Contains(a, OpenTag(tag)) && !Contains(b, CloseTag(tag))
    ensures StripTag(a + OpenTag(tag) + b + CloseTag(tag) + c, tag) == StripTag(a + c, tag)
  {
    hide Find, StripTag, OpenTag, CloseTag;
    var (open, close) := (OpenTag(tag), CloseTag(tag));
    var (inside, s) := (b + close + c, a + open + b + close + c);
    TagsAreUnbordered(tag);
    TagShapes(tag);
    StripStep(s, tag);
    assert s == a + open + inside;
    FindAfter(a, open, inside);
    assert s[|a|..] == open + inside && s[..|a|] == a;
    FindPastTag(open, inside, close);
    FindAfter(b, close, c);
    assert s[|a| + (|open| + |b|) + |close|..] == c;
  }

  lemma TagShapes(tag: string)
    requires tag != "" && tag[0] != '/' && '<' !in tag
    ensures var (open, close) := (OpenTag(tag), CloseTag(tag));
            |open| >= 2 && |close| >= 2 && open[1] != close[1] && close[0] !in open[1..]
  {
  }

  /** No complete block of the tag is left. */
  lemma {:induction false} NoBlockLeft(s: string, tag: string)
    ensures !HasBlock(StripTag(s, tag), tag)
    decreases |s|
  {
    hide Find, StripTag, OpenTag, CloseTag;
    StripStep(s, tag);
    CloseIsLong(tag);
    if HasBlock(s, tag) {
      var start := Find(s, OpenTag(tag)).value;
      var rel := Find(s[start..], CloseTag(tag)).value;
      NoBlockLeft(s[..start] + s[start + rel + |CloseTag(tag)|..], tag);
    }
  }

  /**
   A message without metadata: what stands between the first opening query tag and the next closing one is the query, or
   all of it where one of them is missing.
   */
  lemma QueryIsBetweenTags(before: string, rest: string)
    requires var text := before + QUERY_OPEN + rest;
             IsTrimmed(text) && forall k | 0 <= k < |SYSTEM_TAGS| :: !HasBlock(text, SYSTEM_TAGS[k])
    requires !Contains(before, QUERY_OPEN)
    ensures ExtractUserQuery(before + QUERY_OPEN + rest) ==
            match Find(rest, QUERY_CLOSE)
            case None => before + QUERY_OPEN + rest
            case Some(end) => Trim(rest[..end])
  {
    hide Find, StripTags, HasBlock, Trim;
    var text := before + QUERY_OPEN + rest;
    StripAllKeepsExactly(text, SYSTEM_TAGS);
    TrimmedExactly(text);
    FindAfter(before, QUERY_OPEN, rest);
    assert text[|before| + |QUERY_OPEN|..] == rest;
  }

  /** A message without tags is its own query, without the white space around it. */
  lemma UntaggedMessageIsQuery(text: string)
    requires !Contains(text, QUERY_OPEN) && forall k | 0 <= k < |SYSTEM_TAGS| :: !HasBlock(text, SYSTEM_TAGS[k])
    ensures ExtractUserQuery(text) == Trim(text)
  {
    hide Find, StripTags, HasBlock, Trim;
    StripAllKeepsExactly(text, SYSTEM_TAGS);
    if Contains(Trim(text), QUERY_OPEN) {
      TrimAddsNothing(text, QUERY_OPEN);
    }
  }

  // ---------------------------------------------------------------- the loops

  method StripKnownTags(text: string) returns (result: string)
    ensures result == StripSystemTags(text)
  {
    hide Find, StripTag, StripTags, Trim, OpenTag, CloseTag;
    result := text;
    assert SYSTEM_TAGS[0..] == SYSTEM_TAGS;
    for k := 0 to |SYSTEM_TAGS|
      invariant StripTags(result, SYSTEM_TAGS[k..]) == StripTags(text, SYSTEM_TAGS)
    {
      var tag := SYSTEM_TAGS[k];
      TagsStep(result, k);
      ghost var was := result;
      while Find(result, OpenTag(tag)).Some?
        invariant StripTag(result, tag) == StripTag(was, tag)
        decreases |result|
      {
        StripStep(result, tag);
        CloseIsLong(tag);
        var start := Find(result, OpenTag(tag)).value;
        match Find(result[start..], CloseTag(tag)) {
          case None => break;
          case Some(rel) => result := result[..start] + result[start + rel + |CloseTag(tag)|..];
        }
      }
      StripStep(result, tag);
    }
    NoTagsLeft(result);
    result := Trim(result);
  }

  lemma TagsStep(s: string, k: nat)
    requires k < |SYSTEM_TAGS|
    ensures StripTags(s, SYSTEM_TAGS[k..]) == StripTags(StripTag(s, SYSTEM_TAGS[k]), SYSTEM_TAGS[k + 1..])
  {
    hide StripTag;
    assert SYSTEM_TAGS[k..][1..] == SYSTEM_TAGS[k + 1..];
  }

  lemma NoTagsLeft(s: string)
    ensures StripTags(s, SYSTEM_TAGS[|SYSTEM_TAGS|..]) == s
  {
  }
}
