/**
 Cleaning the reply of the compaction model into the plain-text summary block.
 The live control tags are defused with a zero-width space, runs of blank lines are capped, the ends are trimmed.
 */
module SummaryCleaning {
  import opened Options
  import opened Text

  const ZWSP: char := '\U{200B}'

  const SUMMARY_OPEN := "<summary>"
  const SUMMARY_CLOSE := "</summary>"
  const ANALYSIS_OPEN := "<analysis>"
  const ANALYSIS_CLOSE := "</analysis>"

  const TOKENS: seq<string> := [
    SUMMARY_CLOSE, SUMMARY_OPEN, ANALYSIS_CLOSE, ANALYSIS_OPEN, "</summary_request>", "<summary_request>"
  ]

  // ---------------------------------------------------------------- defusing control tokens

  /** The form of every control token: one opening bracket, in front. */
  predicate IsTag(t: string) {
    |t| >= 2 && t[0] == '<' && '<' !in t[1..] && ZWSP !in t
  }

  predicate AreTags(tokens: seq<string>) {
    forall k | 0 <= k < |tokens| :: IsTag(tokens[k])
  }

  function Dead(t: string): string
    requires t != ""
  {
    [t[0], ZWSP] + t[1..]
  }

  /** One replacement pass per token, in the given order. */
  function ReplaceEach(s: string, tokens: seq<string>): string
    requires AreTags(tokens)
    decreases |tokens|
  {
    if tokens == [] then s else ReplaceEach(Replace(s, tokens[0], Dead(tokens[0])), tokens[1..])
  }

  lemma ClosersAreTags()
    ensures IsTag(TOKENS[0]) && IsTag(TOKENS[2]) && IsTag(TOKENS[4])
  {
  }

  lemma OpenersAreTags()
    ensures IsTag(TOKENS[1]) && IsTag(TOKENS[3]) && IsTag(TOKENS[5])
  {
  }

  lemma TokensAreTags()
    ensures AreTags(TOKENS)
  {
    hide IsTag;
    ClosersAreTags();
    OpenersAreTags();
  }

  function Neutralize(s: string): string {
    hide AreTags;
    TokensAreTags();
    ReplaceEach(s, TOKENS)
  }

  predicate LiveAt(s: string, tokens: seq<string>) {
    exists k | 0 <= k < |tokens| :: tokens[k] <= s
  }

  /** All tokens at once: a zero-width space behind every bracket that opens one of them. */
  function Defuse(s: string, tokens: seq<string>): string {
    if s == "" then ""
    else if LiveAt(s, tokens) then [s[0], ZWSP] + Defuse(s[1..], tokens)
    else [s[0]] + Defuse(s[1..], tokens)
  }

  lemma PrefixCons(w: string, c: char, rest: string)
    requires w != ""
    ensures w <= [c] + rest <==> w[0] == c && w[1..] <= rest
  {
    assert w == [w[0]] + w[1..];
    if |w| <= |rest| + 1 {
      assert ([c] + rest)[..|w|] == [c] + rest[..|w| - 1];
    }
  }

  lemma LiveOnlyAtBracket(s: string, tokens: seq<string>)
    requires AreTags(tokens) && LiveAt(s, tokens)
    ensures s != "" && s[0] == '<'
  {
  }

  /** A word without brackets is read through the defused text as before. */
  lemma {:induction false} PlainWordsShowThrough(w: string, s: string, tokens: seq<string>)
    requires AreTags(tokens) && '<' !in w && ZWSP !in w
    ensures w <= Defuse(s, tokens) <==> w <= s
  {
    hide LiveAt, AreTags;
    if w != "" && s != "" {
      assert s == [s[0]] + s[1..];
      PrefixCons(w, s[0], s[1..]);
      assert w[0] != '<' && '<' !in w[1..] && ZWSP !in w[1..];
      PlainWordsShowThrough(w[1..], s[1..], tokens);
      if LiveAt(s, tokens) {
        LiveOnlyAtBracket(s, tokens);
        PrefixCons(w, s[0], [ZWSP] + Defuse(s[1..], tokens));
        assert [s[0], ZWSP] + Defuse(s[1..], tokens) == [s[0]] + ([ZWSP] + Defuse(s[1..], tokens));
      } else {
        PrefixCons(w, s[0], Defuse(s[1..], tokens));
      }
    }
  }

  /** A token shows in the defused text only where it stood and nothing was defused. */
  lemma TokenShowsOnlyUndefused(t: string, s: string, tokens: seq<string>)
    requires AreTags(tokens) && IsTag(t)
    ensures t <= Defuse(s, tokens) <==> t <= s && !LiveAt(s, tokens)
  {
    hide LiveAt, AreTags;
    if s != "" {
      assert s == [s[0]] + s[1..];
      PrefixCons(t, s[0], s[1..]);
      PlainWordsShowThrough(t[1..], s[1..], tokens);
      if LiveAt(s, tokens) {
        var rest := Defuse(s[1..], tokens);
        assert [s[0], ZWSP] + rest == [s[0]] + ([ZWSP] + rest);
        PrefixCons(t, s[0], [ZWSP] + rest);
        PrefixCons(t[1..], ZWSP, rest);
        assert t[1..][0] == t[1];
      } else {
        PrefixCons(t, s[0], Defuse(s[1..], tokens));
      }
    }
  }

  lemma {:induction false} DefuseKeepsPlain(plain: string, rest: string, tokens: seq<string>)
    requires AreTags(tokens) && '<' !in plain
    ensures Defuse(plain + rest, tokens) == plain + Defuse(rest, tokens)
  {
    hide LiveAt, AreTags;
    if plain == "" {
      assert plain + rest == rest;
    } else {
      assert (plain + rest)[1..] == plain[1..] + rest;
      DefuseKeepsPlain(plain[1..], rest, tokens);
      if LiveAt(plain + rest, tokens) {
        LiveOnlyAtBracket(plain + rest, tokens);
      }
      assert plain == [plain[0]] + plain[1..];
    }
  }

  lemma LiveWithOneMore(s: string, tokens: seq<string>, t: string)
    ensures LiveAt(s, tokens + [t]) <==> LiveAt(s, tokens) || t <= s
  {
    var more := tokens + [t];
    if LiveAt(s, tokens) {
      var k :| 0 <= k < |tokens| && tokens[k] <= s;
      assert more[k] == tokens[k];
    }
    if t <= s {
      assert more[|tokens|] == t;
    }
  }

  lemma ReplaceStep(c: char, rest: string, from: string, to: string)
    requires from != ""
    ensures !(from <= [c] + rest) ==> Replace([c] + rest, from, to) == [c] + Replace(rest, from, to)
  {
    assert ([c] + rest)[1..] == rest;
  }

  lemma ReplaceHit(from: string, rest: string, to: string)
    requires from != ""
    ensures Replace(from + rest, from, to) == to + Replace(rest, from, to)
  {
    assert (from + rest)[|from|..] == rest;
  }

  /** A pass for one more token defuses that token too. */
  lemma {:induction false} OnePassMore(s: string, tokens: seq<string>, t: string)
    requires AreTags(tokens) && IsTag(t)
    ensures Replace(Defuse(s, tokens), t, Dead(t)) == Defuse(s, tokens + [t])
    decreases |s|
  {
    hide LiveAt, AreTags, Replace;
    if s == "" {
      NothingToReplace(t, Dead(t));
    } else {
      LiveWithOneMore(s, tokens, t);
      TokenShowsOnlyUndefused(t, s, tokens);
      var rest := Defuse(s[1..], tokens);
      if LiveAt(s, tokens) {
        OnePassMore(s[1..], tokens, t);
        OnePassMoreAtLive(s, tokens, t);
      } else if t <= s {
        OnePassMoreAtToken(s, tokens, t);
      } else {
        OnePassMore(s[1..], tokens, t);
        ReplaceStep(s[0], rest, t, Dead(t));
      }
    }
  }

  lemma PassGoesOn(c: char, rest: string, t: string)
    requires IsTag(t)
    ensures Replace([c, ZWSP] + rest, t, Dead(t)) == [c, ZWSP] + Replace(rest, t, Dead(t))
  {
    hide Replace, Dead;
    var more := [ZWSP] + rest;
    assert [c, ZWSP] + rest == [c] + more;
    PrefixCons(t, ZWSP, rest);
    PrefixCons(t, c, more);
    PrefixCons(t[1..], ZWSP, rest);
    ReplaceStep(ZWSP, rest, t, Dead(t));
    ReplaceStep(c, more, t, Dead(t));
  }

  /** Where a token is already defused the new pass goes on behind it. */
  lemma OnePassMoreAtLive(s: string, tokens: seq<string>, t: string)
    requires AreTags(tokens) && IsTag(t) && s != "" && LiveAt(s, tokens)
    requires Replace(Defuse(s[1..], tokens), t, Dead(t)) == Defuse(s[1..], tokens + [t])
    ensures Replace(Defuse(s, tokens), t, Dead(t)) == Defuse(s, tokens + [t])
  {
    hide LiveAt, AreTags, Replace, Defuse, Dead, IsTag;
    LiveWithOneMore(s, tokens, t);
    DefuseStep(s, tokens);
    DefuseStep(s, tokens + [t]);
    PassGoesOn(s[0], Defuse(s[1..], tokens), t);
  }

  lemma NothingToReplace(from: string, to: string)
    requires from != ""
    ensures Replace("", from, to) == ""
  {
  }

  lemma {:induction false} OnePassMoreAtToken(s: string, tokens: seq<string>, t: string)
    requires AreTags(tokens) && IsTag(t) && t <= s && !LiveAt(s, tokens)
    ensures Replace(Defuse(s, tokens), t, Dead(t)) == Defuse(s, tokens + [t])
    decreases |s|, 0
  {
    hide LiveAt, AreTags, Replace, Dead;
    var rest, more := s[|t|..], tokens + [t];
    assert s == t + rest && s[0] == t[0];
    assert s[1..] == t[1..] + rest;
    LiveWithOneMore(s, tokens, t);
    assert AreTags(more) by { StillTags(tokens, t); }
    DefuseKeepsPlain(t[1..], rest, tokens);
    DefuseKeepsPlain(t[1..], rest, more);
    assert t == [t[0]] + t[1..];
    assert Defuse(s, tokens) == [t[0]] + (t[1..] + Defuse(rest, tokens)) == t + Defuse(rest, tokens);
    ReplaceHit(t, Defuse(rest, tokens), Dead(t));
    OnePassMore(rest, tokens, t);
    DeadIs(t);
    assert Defuse(s, more) == [t[0], ZWSP] + (t[1..] + Defuse(rest, more)) == Dead(t) + Defuse(rest, more);
  }

  lemma DeadIs(t: string)
    requires t != ""
    ensures Dead(t) == [t[0], ZWSP] + t[1..]
  {
  }

  lemma StillTags(tokens: seq<string>, t: string)
    requires AreTags(tokens) && IsTag(t)
    ensures AreTags(tokens + [t])
  {
  }

  lemma {:induction false} PassesCompose(s: string, done: seq<string>, tokens: seq<string>)
    requires AreTags(done) && AreTags(tokens)
    ensures ReplaceEach(Defuse(s, done), tokens) == Defuse(s, done + tokens)
    decreases |tokens|
  {
    hide Defuse, Replace, Dead;
    if tokens == [] {
      assert done + tokens == done;
    } else {
      OnePassMore(s, done, tokens[0]);
      StillTags(done, tokens[0]);
      PassesCompose(s, done + [tokens[0]], tokens[1..]);
      assert done + [tokens[0]] + tokens[1..] == done + tokens;
    }
  }

  lemma NoTags()
    ensures AreTags([])
  {
  }

  lemma {:induction false} DefuseNothing(s: string)
    ensures Defuse(s, []) == s
  {
    if s != "" {
      DefuseNothing(s[1..]);
    }
  }

  /** The six passes are one: each bracket that opens a live token gets one zero-width space, nothing else changes. */
  lemma NeutralizeIsOnePass(s: string)
    ensures Neutralize(s) == Defuse(s, TOKENS)
  {
    hide Defuse, ReplaceEach, AreTags;
    TokensAreTags();
    DefuseNothing(s);
    NoTags();
    PassesCompose(s, [], TOKENS);
    assert [] + TOKENS == TOKENS;
  }

  lemma TokenIsLive(s: string, tokens: seq<string>, k: nat)
    requires AreTags(tokens) && k < |tokens|
    ensures IsTag(tokens[k])
    ensures tokens[k] <= s ==> LiveAt(s, tokens)
  {
  }

  /** No token is left, and none appears. */
  lemma {:induction false} DefusedHasNoToken(s: string, tokens: seq<string>, k: nat)
    requires AreTags(tokens) && k < |tokens|
    ensures !Contains(Defuse(s, tokens), tokens[k])
  {
    hide AreTags, LiveAt, Contains;
    var t := tokens[k];
    TokenIsLive(s, tokens, k);
    if s == "" {
      NothingContained(t);
    } else {
      DefusedHasNoToken(s[1..], tokens, k);
      TokenShowsOnlyUndefused(t, s, tokens);
      var rest := Defuse(s[1..], tokens);
      if Contains(Defuse(s, tokens), t) {
        if LiveAt(s, tokens) {
          assert [s[0], ZWSP] + rest == [s[0]] + ([ZWSP] + rest);
          ContainsCons(s[0], [ZWSP] + rest, t);
          PrefixCons(t, ZWSP, rest);
          ContainsCons(ZWSP, rest, t);
        } else {
          ContainsCons(s[0], rest, t);
        }
      }
    }
  }

  /** A text without tokens is left as it is. */
  lemma {:induction false} NothingToDefuse(s: string, tokens: seq<string>)
    requires AreTags(tokens)
    requires forall k | 0 <= k < |tokens| :: !Contains(s, tokens[k])
    ensures Defuse(s, tokens) == s
  {
    hide AreTags, Defuse;
    if s == "" {
      DefusedAtEnd(tokens);
    } else {
      DefuseStep(s, tokens);
      NothingToDefuse(s[1..], tokens);
    }
  }

  lemma DefusedAtEnd(tokens: seq<string>)
    ensures Defuse("", tokens) == ""
  {
  }

  lemma DefuseStep(s: string, tokens: seq<string>)
    requires s != ""
    ensures Defuse(s, tokens) ==
            if LiveAt(s, tokens) then [s[0], ZWSP] + Defuse(s[1..], tokens) else [s[0]] + Defuse(s[1..], tokens)
  {
  }

  /** The text with the zero-width space behind each bracket taken out. */
  function Erase(s: string): string {
    if s == "" then ""
    else if |s| >= 2 && s[0] == '<' && s[1] == ZWSP then ['<'] + Erase(s[2..])
    else [s[0]] + Erase(s[1..])
  }

  lemma FirstCharacterStays(s: string, tokens: seq<string>)
    ensures s != "" ==> Defuse(s, tokens) != "" && Defuse(s, tokens)[0] == s[0]
    ensures s == "" ==> Defuse(s, tokens) == ""
  {
  }

  lemma LiveHasNoSpace(s: string, tokens: seq<string>)
    requires AreTags(tokens) && LiveAt(s, tokens)
    ensures |s| >= 2 && s[0] == '<' && s[1] != ZWSP
  {
  }

  lemma EraseStep(s: string)
    requires s != ""
    ensures Erase(s) ==
            if |s| >= 2 && s[0] == '<' && s[1] == ZWSP then ['<'] + Erase(s[2..]) else [s[0]] + Erase(s[1..])
  {
  }

  /** Defusing only inserts zero-width spaces: erasing them gives what erasing gives of the text itself. */
  lemma {:induction false} DefusingOnlyInserts(s: string, tokens: seq<string>)
    requires AreTags(tokens)
    ensures Erase(Defuse(s, tokens)) == Erase(s)
    decreases |s|
  {
    hide AreTags, LiveAt, Defuse, Erase;
    if s == "" {
      DefusedAtEnd(tokens);
    } else {
      DefusingOnlyInserts(s[1..], tokens);
      if LiveAt(s, tokens) {
        InsertedAtToken(s, tokens);
      } else if |s| >= 2 && s[0] == '<' && s[1] == ZWSP {
        DefusingOnlyInserts(s[2..], tokens);
        PairPassesThrough(s, tokens);
      } else {
        DefuseStep(s, tokens);
        EraseStep(s);
        FirstCharacterStays(s[1..], tokens);
        var d, rest := Defuse(s, tokens), Defuse(s[1..], tokens);
        EraseStep(d);
        assert d[1..] == rest;
        assert |s| >= 2 ==> d[1] == s[1];
      }
    }
  }

  lemma InsertedAtToken(s: string, tokens: seq<string>)
    requires AreTags(tokens) && LiveAt(s, tokens)
    requires Erase(Defuse(s[1..], tokens)) == Erase(s[1..])
    ensures Erase(Defuse(s, tokens)) == Erase(s)
  {
    hide AreTags, LiveAt, Defuse, Erase;
    LiveHasNoSpace(s, tokens);
    DefuseStep(s, tokens);
    EraseStep(s);
    EraseStep(Defuse(s, tokens));
    assert Defuse(s, tokens)[2..] == Defuse(s[1..], tokens);
  }

  lemma PairPassesThrough(s: string, tokens: seq<string>)
    requires AreTags(tokens) && !LiveAt(s, tokens)
    requires |s| >= 2 && s[0] == '<' && s[1] == ZWSP
    requires Erase(Defuse(s[2..], tokens)) == Erase(s[2..])
    ensures Erase(Defuse(s, tokens)) == Erase(s)
  {
    hide AreTags, LiveAt, Defuse, Erase;
    var rest := Defuse(s[2..], tokens);
    if LiveAt(s[1..], tokens) {
      LiveOnlyAtBracket(s[1..], tokens);
    }
    DefuseStep(s[1..], tokens);
    assert s[1..][1..] == s[2..] && s[1..][0] == ZWSP;
    assert Defuse(s[1..], tokens) == [ZWSP] + rest;
    DefuseStep(s, tokens);
    var t := ['<'] + ([ZWSP] + rest);
    assert Defuse(s, tokens) == t;
    assert t[0] == '<' && t[1] == ZWSP && t[2..] == rest;
    EraseStep(s);
    EraseStep(t);
  }

  lemma {:induction false} ErasesNothingExactly(s: string)
    ensures |Erase(s)| <= |s|
    ensures Erase(s) == s <==> !Contains(s, ['<', ZWSP])
    decreases |s|
  {
    hide Erase, Contains;
    var pair := ['<', ZWSP];
    if s == "" {
      NothingContained(pair);
      EraseNothing();
    } else {
      EraseStep(s);
      assert s == [s[0]] + s[1..];
      if |s| >= 2 && s[0] == '<' && s[1] == ZWSP {
        ErasesNothingExactly(s[2..]);
        assert pair <= s;
        ContainsHere(s, pair);
      } else {
        ErasesNothingExactly(s[1..]);
        assert !(pair <= s);
        ContainsLater(s, pair);
      }
    }
  }

  lemma EraseNothing()
    ensures Erase("") == ""
  {
  }

  /** Erasing the insertions recovers every text that held no such pair before. */
  lemma NeutralizingIsReversible(s: string)
    ensures Erase(Neutralize(s)) == Erase(s)
    ensures Erase(Neutralize(s)) == s <==> !Contains(s, ['<', ZWSP])
  {
    hide *;
    NeutralizeIsOnePass(s);
    TokensAreTags();
    DefusingOnlyInserts(s, TOKENS);
    ErasesNothingExactly(s);
  }

  // ---------------------------------------------------------------- runs of blank lines

  const BLANK_RUN := "\n\n\n"

  /** At most two newlines in a row; `seen` newlines have just been passed. */
  function CapNewlines(s: string, seen: nat): string {
    if s == "" then ""
    else if s[0] != '\n' then [s[0]] + CapNewlines(s[1..], 0)
    else if seen >= 2 then CapNewlines(s[1..], 2)
    else ['\n'] + CapNewlines(s[1..], seen + 1)
  }

  lemma CapBehindTwo(rest: string, seen: nat)
    requires seen <= 2
    ensures CapNewlines("\n\n" + rest, seen) == "\n\n"[..2 - seen] + CapNewlines(rest, 2)
  {
    var s := "\n\n" + rest;
    assert s[1..] == "\n" + rest && s[1..][1..] == rest;
    CapBehindOne(rest, seen);
    CapBehindOne("\n" + rest, seen);
    assert "\n" + ("\n" + rest) == s;
    if seen < 2 {
      CapBehindOne(rest, seen + 1);
    } else {
      CapBehindOne(rest, 2);
    }
    assert seen == 0 ==> "\n\n"[..2] == "\n" + "\n";
    assert seen == 1 ==> "\n\n"[..1] == "\n";
  }

  lemma CapBehindOne(rest: string, seen: nat)
    ensures CapNewlines("\n" + rest, seen) ==
            if seen >= 2 then CapNewlines(rest, 2) else "\n" + CapNewlines(rest, seen + 1)
  {
    assert ("\n" + rest)[1..] == rest;
  }

  /** One shortening pass does not change what the capped text is. */
  lemma {:induction false} ShorteningKeepsCap(s: string, seen: nat)
    requires seen <= 2
    ensures CapNewlines(Replace(s, BLANK_RUN, "\n\n"), seen) == CapNewlines(s, seen)
    decreases |s|
  {
    hide CapNewlines, Replace;
    if s == "" {
      NothingToReplace(BLANK_RUN, "\n\n");
    } else if BLANK_RUN <= s {
      var rest := s[3..];
      assert s == BLANK_RUN + rest;
      ReplaceHit(BLANK_RUN, rest, "\n\n");
      ShorteningKeepsCap(rest, 2);
      CapBehindTwo(Replace(rest, BLANK_RUN, "\n\n"), seen);
      CapBehindTwo("\n" + rest, seen);
      CapBehindOne(rest, 2);
      assert s == "\n\n" + ("\n" + rest);
    } else {
      assert s == [s[0]] + s[1..];
      ReplaceStep(s[0], s[1..], BLANK_RUN, "\n\n");
      var rest := Replace(s[1..], BLANK_RUN, "\n\n");
      CapStep(s[0], s[1..], seen);
      CapStep(s[0], rest, seen);
      ShorteningKeepsCap(s[1..], 0);
      ShorteningKeepsCap(s[1..], 2);
      if seen < 2 {
        ShorteningKeepsCap(s[1..], seen + 1);
      }
    }
  }

  lemma CapStep(c: char, rest: string, seen: nat)
    ensures CapNewlines([c] + rest, seen) ==
            if c != '\n' then [c] + CapNewlines(rest, 0)
            else if seen >= 2 then CapNewlines(rest, 2)
            else ['\n'] + CapNewlines(rest, seen + 1)
  {
    assert ([c] + rest)[1..] == rest;
  }

  /** The first `n` characters are newlines. */
  predicate NewlinesAhead(s: string, n: nat): (ahead: bool)
    ensures ahead ==> n <= |s|
  {
    n == 0 || (s != "" && s[0] == '\n' && NewlinesAhead(s[1..], n - 1))
  }

  lemma AheadIsRun(s: string)
    ensures BLANK_RUN <= s <==> NewlinesAhead(s, 3)
  {
    if |s| >= 3 {
      assert s == [s[0]] + ([s[1]] + ([s[2]] + s[3..]));
      AheadStep(s[0], [s[1]] + ([s[2]] + s[3..]), 3);
      AheadStep(s[1], [s[2]] + s[3..], 2);
      AheadStep(s[2], s[3..], 1);
      assert s[..3] == [s[0], s[1], s[2]];
    }
  }

  lemma AheadStep(c: char, rest: string, n: nat)
    ensures NewlinesAhead([c] + rest, n) <==> n == 0 || (c == '\n' && (n == 1 || NewlinesAhead(rest, n - 1)))
  {
    assert ([c] + rest)[1..] == rest;
  }

  lemma {:induction false} AheadLess(s: string, m: nat, n: nat)
    requires m <= n && NewlinesAhead(s, n)
    ensures NewlinesAhead(s, m)
  {
    if m > 0 {
      AheadLess(s[1..], m - 1, n - 1);
    }
  }

  /** The capped text has no run of three, and a text without one is its own capped text. */
  lemma {:induction false} CappedHasNoRun(s: string, seen: nat)
    requires seen <= 2
    ensures !Contains(CapNewlines(s, seen), BLANK_RUN) && !NewlinesAhead(CapNewlines(s, seen), 3 - seen)
    ensures !Contains(s, BLANK_RUN) && !NewlinesAhead(s, 3 - seen) ==> CapNewlines(s, seen) == s
  {
    hide CapNewlines, Contains, NewlinesAhead;
    if s == "" {
      CapNothing(seen);
      NothingContained(BLANK_RUN);
    } else {
      var t := s[1..];
      assert s == [s[0]] + t;
      CapStep(s[0], t, seen);
      CappedHasNoRun(t, 0);
      CappedHasNoRun(t, 2);
      if seen < 2 {
        CappedHasNoRun(t, seen + 1);
        AheadStep('\n', CapNewlines(t, seen + 1), 3 - seen);
        AheadStep('\n', CapNewlines(t, seen + 1), 3);
        if NewlinesAhead(CapNewlines(t, seen + 1), 2) {
          AheadLess(CapNewlines(t, seen + 1), 2 - seen, 2);
        }
        NoRunConsed('\n', CapNewlines(t, seen + 1));
      }
      AheadStep(s[0], t, 3 - seen);
      AheadStep(s[0], t, 3);
      AheadStep(s[0], CapNewlines(t, 0), 3 - seen);
      if s[0] != '\n' {
        NoRunConsed(s[0], CapNewlines(t, 0));
      }
      TailHasNoRun(s);
    }
  }

  lemma CapNothing(seen: nat)
    ensures CapNewlines("", seen) == ""
    ensures seen <= 2 ==> !NewlinesAhead("", 3 - seen)
  {
  }

  lemma NoRunConsed(c: char, rest: string)
    requires !Contains(rest, BLANK_RUN)
    requires c != '\n' || !NewlinesAhead(rest, 2)
    ensures !Contains([c] + rest, BLANK_RUN)
  {
    hide Contains;
    AheadIsRun([c] + rest);
    AheadStep(c, rest, 3);
    if Contains([c] + rest, BLANK_RUN) {
      ContainsCons(c, rest, BLANK_RUN);
    }
  }

  lemma TailHasNoRun(s: string)
    requires s != ""
    ensures !Contains(s, BLANK_RUN) ==> !Contains(s[1..], BLANK_RUN) && !NewlinesAhead(s[1..], 3)
  {
    hide NewlinesAhead;
    AheadIsRun(s[1..]);
    if BLANK_RUN <= s[1..] {
      ContainsHere(s[1..], BLANK_RUN);
    }
  }

  lemma {:induction false} WordReadThroughCap(w: string, s: string, seen: nat)
    requires w != "" && '\n' !in w && s != "" && (s[0] != '\n' || seen < 2)
    requires w <= CapNewlines(s, seen)
    ensures w <= s
  {
    hide CapNewlines;
    var t := s[1..];
    assert s == [s[0]] + t;
    CapStep(s[0], t, seen);
    PrefixCons(w, s[0], t);
    assert w[0] != '\n';
    PrefixCons(w, s[0], CapNewlines(t, 0));
    if w[1..] != "" {
      assert '\n' !in w[1..];
      CapNothing(0);
      WordReadThroughCap(w[1..], t, 0);
    }
  }

  /** Dropping newlines brings no word in that has none. */
  lemma {:induction false} CapAddsNothing(s: string, seen: nat, w: string)
    requires w != "" && '\n' !in w && Contains(CapNewlines(s, seen), w)
    ensures Contains(s, w)
  {
    hide CapNewlines, Contains;
    if s == "" {
      CapNothing(seen);
      NothingContained(w);
    } else {
      var t := s[1..];
      assert s == [s[0]] + t;
      CapStep(s[0], t, seen);
      if s[0] == '\n' && seen >= 2 {
        CapAddsNothing(t, 2, w);
        ContainsInTail(s, w);
      } else if w <= CapNewlines(s, seen) {
        WordReadThroughCap(w, s, seen);
        ContainsHere(s, w);
      } else {
        var next := if s[0] == '\n' then seen + 1 else 0;
        ContainsCons(s[0], CapNewlines(t, next), w);
        CapAddsNothing(t, next, w);
        ContainsInTail(s, w);
      }
    }
  }

  // ---------------------------------------------------------------- scratchpad and summary tags

  predicate IsBlank(s: string) {
    Trim(s) == ""
  }

  /**
   A scratchpad opened at `start` is leading: it stands before the summary tag, or nothing but space stands before
   it.
   */
  predicate IsLeading(s: string, start: nat)
    requires start <= |s|
  {
    match Find(s, SUMMARY_OPEN)
    case Some(sp) => start < sp || (sp + |SUMMARY_OPEN| <= start && IsBlank(s[sp + |SUMMARY_OPEN|..start]))
    case None => IsBlank(s[..start])
  }

  /** Leading scratchpad blocks taken out; an unclosed one runs to the summary tag or to the end. */
  function StripAnalysis(s: string): string
    decreases |s|
  {
    match Find(s, ANALYSIS_OPEN)
    case None => s
    case Some(start) =>
      if !IsLeading(s, start) then s
      else
        match Find(s[start..], ANALYSIS_CLOSE)
        case Some(rel) => StripAnalysis(s[..start] + s[start + rel + |ANALYSIS_CLOSE|..])
        case None => s[..start] + s[UnclosedEnd(s, start)..]
  }

  function UnclosedEnd(s: string, start: nat): (end: nat)
    requires start <= |s|
    ensures start <= end <= |s|
  {
    match Find(s[start..], SUMMARY_OPEN)
    case Some(rel) => start + rel
    case None => |s|
  }

  predicate IsListMark(c: char) {
    c == '#' || c == '*' || c == '-' || c == '>' || c == ' ' || c == '\t'
  }

  function SkipListMarks(s: string): string {
    if s != "" && IsListMark(s[0]) then SkipListMarks(s[1..]) else s
  }

  predicate StartsNumbered(s: string) {
    var lead := SkipListMarks(s);
    lead != "" && '0' <= lead[0] <= '9'
  }

  /**
   Drafting without an opening tag is dropped through the last closing tag, unless the block starts with a numbered
   section.
   */
  function PeelDraft(s: string): string {
    match RFind(s, ANALYSIS_CLOSE)
    case Some(pos) => if StartsNumbered(s) then s else TrimStart(s[pos + |ANALYSIS_CLOSE|..])
    case None => s
  }

  function PeelSummaryTag(s: string): string {
    if SUMMARY_OPEN <= s then TrimStart(s[|SUMMARY_OPEN|..]) else s
  }

  function StripLeadingScratchpad(inner: string): string {
    PeelSummaryTag(PeelDraft(Trim(inner)))
  }

  /** The text between the first opening and the last closing tag, under a plain heading. */
  function Unwrap(s: string): string {
    match (Find(s, SUMMARY_OPEN), RFind(s, SUMMARY_CLOSE))
    case (Some(start), Some(end)) =>
      if end > start then
        var inner := if start + |SUMMARY_OPEN| <= end then s[start + |SUMMARY_OPEN|..end] else "";
        s[..start] + "Summary:\n" + StripLeadingScratchpad(Trim(inner)) + s[end + |SUMMARY_CLOSE|..]
      else s
    case _ => s
  }

  function Cleaned(summary: string): string {
    Trim(CapNewlines(Neutralize(Unwrap(StripAnalysis(summary))), 0))
  }

  lemma CleanedIs(summary: string)
    ensures Cleaned(summary) == Trim(CapNewlines(Neutralize(Unwrap(StripAnalysis(summary))), 0))
  {
    hide Trim, CapNewlines, Neutralize, Unwrap, StripAnalysis;
  }

  lemma TokenHasNoNewline(k: nat)
    requires k < |TOKENS|
    ensures TOKENS[k] != "" && '\n' !in TOKENS[k]
  {
  }

  /** Whatever the model replied, the cleaned text holds none of the live tokens. */
  lemma CleanedHasNoToken(summary: string, k: nat)
    requires k < |TOKENS|
    ensures !Contains(Cleaned(summary), TOKENS[k])
  {
    hide *;
    CleanedIs(summary);
    var text := Unwrap(StripAnalysis(summary));
    NeutralizeIsOnePass(text);
    TokensAreTags();
    DefusedHasNoToken(text, TOKENS, k);
    TokenHasNoNewline(k);
    if Contains(Cleaned(summary), TOKENS[k]) {
      TrimAddsNothing(CapNewlines(Neutralize(text), 0), TOKENS[k]);
      CapAddsNothing(Neutralize(text), 0, TOKENS[k]);
    }
  }

  lemma CleanedIsTight(summary: string)
    ensures !Contains(Cleaned(summary), BLANK_RUN)
    ensures IsTrimmed(Cleaned(summary))
  {
    hide *;
    CleanedIs(summary);
    var text := Neutralize(Unwrap(StripAnalysis(summary)));
    CappedHasNoRun(text, 0);
    TrimmedExactly(CapNewlines(text, 0));
    if Contains(Cleaned(summary), BLANK_RUN) {
      TrimAddsNothing(CapNewlines(text, 0), BLANK_RUN);
    }
  }

  lemma NothingToStrip(s: string)
    requires !Contains(s, ANALYSIS_OPEN)
    ensures StripAnalysis(s) == s
  {
    hide Find;
  }

  predicate TokenFree(s: string) {
    forall k | 0 <= k < |TOKENS| :: !Contains(s, TOKENS[k])
  }

  lemma TokenFreeTags(s: string)
    requires TokenFree(s)
    ensures !Contains(s, SUMMARY_OPEN) && !Contains(s, ANALYSIS_OPEN) && !Contains(s, ANALYSIS_CLOSE)
    ensures !Contains(s, SUMMARY_CLOSE)
  {
    hide Contains;
    assert TOKENS[0] == SUMMARY_CLOSE && TOKENS[1] == SUMMARY_OPEN;
    assert TOKENS[2] == ANALYSIS_CLOSE && TOKENS[3] == ANALYSIS_OPEN;
  }

  lemma NothingToNeutralize(s: string)
    requires TokenFree(s)
    ensures Neutralize(s) == s
  {
    hide Contains, Defuse, AreTags, Neutralize;
    TokensAreTags();
    NeutralizeIsOnePass(s);
    NothingToDefuse(s, TOKENS);
  }

  /** Without control tokens only white space is cleaned. */
  lemma TokenFreeTextIsOnlyTightened(s: string)
    requires TokenFree(s)
    ensures Cleaned(s) == Trim(CapNewlines(s, 0))
  {
    hide *;
    CleanedIs(s);
    TokenFreeTags(s);
    NothingToStrip(s);
    UntaggedIsKept(s);
    NothingToNeutralize(s);
  }

  lemma CleanedIsTokenFree(summary: string)
    ensures TokenFree(Cleaned(summary))
  {
    hide Contains, Cleaned;
    forall k | 0 <= k < |TOKENS| ensures !Contains(Cleaned(summary), TOKENS[k]) {
      CleanedHasNoToken(summary, k);
    }
  }

  /** Cleaning a cleaned text changes nothing. */
  lemma CleaningIsIdempotent(summary: string)
    ensures Cleaned(Cleaned(summary)) == Cleaned(summary)
  {
    hide *;
    var text := Cleaned(summary);
    CleanedIsTokenFree(summary);
    TokenFreeTextIsOnlyTightened(text);
    CleanedIsTight(summary);
    AheadIsRun(text);
    if BLANK_RUN <= text {
      ContainsHere(text, BLANK_RUN);
    }
    CappedHasNoRun(text, 0);
    TrimmedExactly(text);
  }

  /** A block that begins with a numbered section keeps every character; otherwise no closing scratchpad tag is left. */
  lemma NumberedBlockIsKept(inner: string)
    ensures StartsNumbered(Trim(inner)) ==> StripLeadingScratchpad(inner) == Trim(inner)
    ensures !StartsNumbered(Trim(inner)) ==> !Contains(StripLeadingScratchpad(inner), ANALYSIS_CLOSE)
  {
    hide *;
    var s := Trim(inner);
    PeeledIs(inner);
    if StartsNumbered(s) {
      if SUMMARY_OPEN <= s {
        TagIsNotNumbered(s);
      }
      NumberedIsNotPeeled(s);
    } else {
      DraftIsPeeled(s);
      TagPeelAddsNothing(PeelDraft(s), ANALYSIS_CLOSE);
    }
  }

  lemma PeeledIs(inner: string)
    ensures StripLeadingScratchpad(inner) == PeelSummaryTag(PeelDraft(Trim(inner)))
  {
    hide Trim, PeelDraft, PeelSummaryTag;
  }

  lemma TagIsNotNumbered(s: string)
    requires SUMMARY_OPEN <= s
    ensures !StartsNumbered(s)
  {
    assert s[0] == SUMMARY_OPEN[0];
  }

  lemma NumberedIsNotPeeled(s: string)
    requires StartsNumbered(s)
    ensures PeelSummaryTag(PeelDraft(s)) == s
  {
    hide RFind, TrimStart, StartsNumbered;
    if SUMMARY_OPEN <= s {
      TagIsNotNumbered(s);
    }
  }

  lemma DraftIsPeeled(s: string)
    requires !StartsNumbered(s)
    ensures !Contains(PeelDraft(s), ANALYSIS_CLOSE)
  {
    hide Contains, RFind, TrimStart, StartsNumbered;
    NothingBehindTheTrimmed(s, ANALYSIS_CLOSE);
  }

  lemma NothingBehindTheTrimmed(s: string, word: string)
    requires word != ""
    ensures match RFind(s, word)
            case Some(pos) => !Contains(TrimStart(s[pos + |word|..]), word)
            case None => !Contains(s, word)
  {
    hide *;
    NothingBehindTheLast(s, word);
    match RFind(s, word)
    case Some(pos) => TrimStartAddsNothing(s[pos + |word|..], word);
    case None =>
  }

  lemma TagPeelAddsNothing(s: string, word: string)
    ensures Contains(PeelSummaryTag(s), word) ==> Contains(s, word)
  {
    hide Contains, TrimStart;
    if SUMMARY_OPEN <= s {
      SuffixAddsNothing(s, |SUMMARY_OPEN|, word);
      TrimStartAddsNothing(s[|SUMMARY_OPEN|..], word);
    }
  }

  lemma SuffixAddsNothing(s: string, i: nat, word: string)
    requires i <= |s|
    ensures Contains(s[i..], word) ==> Contains(s, word)
  {
    hide *;
    if Contains(s[i..], word) {
      ContainsPart(s[..i], s[i..], "", word);
      assert s[..i] + s[i..] + "" == s;
    }
  }

  lemma TrimStartAddsNothing(s: string, word: string)
    ensures Contains(TrimStart(s), word) ==> Contains(s, word)
  {
    hide *;
    SuffixAddsNothing(s, |s| - |TrimStart(s)|, word);
  }

  lemma NothingBehindTheLast(s: string, word: string)
    requires word != ""
    ensures match RFind(s, word)
            case Some(pos) => !Contains(s[pos + |word|..], word)
            case None => !Contains(s, word)
  {
    hide Find, RFind;
    match RFind(s, word)
    case Some(pos) =>
      var rest := s[pos + |word|..];
      FoundIsLeftmost(rest, word);
      if Contains(rest, word) {
        var i := Find(rest, word).value;
        assert rest[i..i + |word|] == s[pos + |word| + i..pos + |word| + i + |word|];
        assert OccursAt(s, word, pos + |word| + i);
      }
      RFoundIsRightmost(s, word);
    case None =>
      FoundIsLeftmost(s, word);
      RFoundIsRightmost(s, word);
  }

  /** A scratchpad block that is leading and closed. */
  predicate HasLeadingScratchpad(s: string) {
    match Find(s, ANALYSIS_OPEN)
    case Some(start) => IsLeading(s, start) && Contains(s[start..], ANALYSIS_CLOSE)
    case None => false
  }

  /** Stripping goes on until no leading scratchpad is left, however many the reply opened. */
  lemma {:induction false} NoLeadingScratchpadLeft(s: string)
    ensures !HasLeadingScratchpad(StripAnalysis(s))
    decreases |s|
  {
    hide StripAnalysis, Find, IsLeading;
    StripStep(s);
    match Find(s, ANALYSIS_OPEN)
    case None =>
    case Some(start) =>
      if IsLeading(s, start) {
        match Find(s[start..], ANALYSIS_CLOSE) {
          case Some(rel) => NoLeadingScratchpadLeft(s[..start] + s[start + rel + |ANALYSIS_CLOSE|..]);
          case None => UnclosedLeavesNoClose(s, start);
        }
      }
  }

  lemma UnclosedLeavesNoClose(s: string, start: nat)
    requires Find(s, ANALYSIS_OPEN) == Some(start) && !Contains(s[start..], ANALYSIS_CLOSE)
    ensures !HasLeadingScratchpad(s[..start] + s[UnclosedEnd(s, start)..])
  {
    hide Find, IsLeading;
    var end := UnclosedEnd(s, start);
    var head, tail := s[..start], s[end..];
    UnclosedTail(s, start);
    NothingBefore(s, ANALYSIS_OPEN);
    NoneBefore(head, tail, ANALYSIS_OPEN);
    match Find(head + tail, ANALYSIS_OPEN)
    case None =>
    case Some(i) =>
      assert (head + tail)[i..] == tail[i - start..];
      SuffixAddsNothing(tail, i - start, ANALYSIS_CLOSE);
      assert s[start..][end - start..] == tail;
      SuffixAddsNothing(s[start..], end - start, ANALYSIS_CLOSE);
  }

  lemma UnclosedTail(s: string, start: nat)
    requires start <= |s|
    ensures var tail := s[UnclosedEnd(s, start)..]; tail == "" || tail[0] == '<'
  {
    hide Find;
    FoundIsLeftmost(s[start..], SUMMARY_OPEN);
    match Find(s[start..], SUMMARY_OPEN)
    case None =>
    case Some(rel) => assert s[start..][rel..rel + |SUMMARY_OPEN|][0] == s[start + rel];
  }

  lemma NothingBefore(s: string, word: string)
    requires word != "" && Find(s, word).Some?
    ensures !Contains(s[..Find(s, word).value], word)
  {
    hide Find;
    var head := s[..Find(s, word).value];
    FoundIsLeftmost(head, word);
    if Find(head, word).Some? {
      var i := Find(head, word).value;
      assert s[i..i + |word|] == head[i..i + |word|];
      assert OccursAt(s, word, i);
    }
    FoundIsLeftmost(s, word);
  }

  /** A reply in the asked-for form, with a scratchpad in front. */
  function Reply(scratch: string, gap: string, body: string, after: string): string {
    ANALYSIS_OPEN + scratch + ANALYSIS_CLOSE + SummaryBlock(gap, body, after)
  }

  /** A summary in its tags, with what stands around them. */
  function SummaryBlock(gap: string, body: string, after: string): string {
    gap + SUMMARY_OPEN + body + SUMMARY_CLOSE + after
  }

  lemma OccurrenceReads(s: string, word: string, i: nat, j: nat)
    requires OccursAt(s, word, i) && i <= j < i + |word|
    ensures s[j] in word
  {
    assert s[j] == s[i..i + |word|][j - i];
  }

  /** A character that the word does not have keeps the word out of what stands around it. */
  lemma SeparatorAddsNothing(a: string, c: char, b: string, word: string)
    requires word != "" && c !in word
    ensures Contains(a + ([c] + b), word) ==> Contains(a, word) || Contains(b, word)
  {
    hide Find;
    var s := a + ([c] + b);
    FoundIsLeftmost(s, word);
    FoundIsLeftmost(a, word);
    FoundIsLeftmost(b, word);
    if Find(s, word).Some? {
      var i := Find(s, word).value;
      if i <= |a| < i + |word| {
        OccurrenceReads(s, word, i, |a|);
      }
      if i < |a| {
        assert a[i..i + |word|] == s[i..i + |word|];
        assert OccursAt(a, word, i);
      } else {
        assert s == (a + [c]) + b;
        OccursBehind(a + [c], b, word, i);
      }
    }
  }

  lemma BlockHasNoScratchpad(gap: string, body: string, after: string)
    requires !Contains(gap, ANALYSIS_OPEN) && !Contains(body, ANALYSIS_OPEN) && !Contains(after, ANALYSIS_OPEN)
    ensures !Contains(SummaryBlock(gap, body, after), ANALYSIS_OPEN)
  {
    hide Find;
    var (front, back) := (SUMMARY_OPEN + body, SUMMARY_CLOSE + after);
    FindPastTag(SUMMARY_OPEN, body, ANALYSIS_OPEN);
    FindPastTag(SUMMARY_CLOSE, after, ANALYSIS_OPEN);
    FindBehind(front, back, ANALYSIS_OPEN);
    FindBehind(gap, front + back, ANALYSIS_OPEN);
    assert SummaryBlock(gap, body, after) == gap + (front + back);
  }

  lemma TailBehindTag(head: string, tag: string, inside: string, k: nat)
    requires k <= |inside|
    ensures (head + (tag + inside))[|head| + (|tag| + k)..] == inside[k..]
  {
    var s := head + (tag + inside);
    assert s[|head| + |tag|..] == inside;
    assert s[|head| + |tag|..][k..] == s[|head| + (|tag| + k)..];
  }

  /**
   A scratchpad that opens between the two texts is leading: a summary tag comes first and only space stands between,
   or a summary tag is still to come, or only space stands before it.
   */
  predicate Leads(head: string, inside: string) {
    match Find(head, SUMMARY_OPEN)
    case Some(i) => Trim(head[i + |SUMMARY_OPEN|..]) == ""
    case None => Contains(inside, SUMMARY_OPEN) || Trim(head) == ""
  }

  lemma OpenerIsLeading(head: string, inside: string)
    requires !Contains(head, ANALYSIS_OPEN)
    ensures var s := head + (ANALYSIS_OPEN + inside);
            && Find(s, ANALYSIS_OPEN) == Some(|head|)
            && (IsLeading(s, |head|) <==> Leads(head, inside))
  {
    hide Find, Trim;
    var more := ANALYSIS_OPEN + inside;
    var s := head + more;
    FindAfter(head, ANALYSIS_OPEN, inside);
    assert s == head + ANALYSIS_OPEN + inside;
    if Contains(head, SUMMARY_OPEN) {
      FindInFront(head, more, SUMMARY_OPEN);
      FoundIsLeftmost(head, SUMMARY_OPEN);
      var i := Find(head, SUMMARY_OPEN).value;
      assert s[i + |SUMMARY_OPEN|..|head|] == head[i + |SUMMARY_OPEN|..];
    } else {
      FindBehind(head, more, SUMMARY_OPEN);
      FindPastTag(ANALYSIS_OPEN, inside, SUMMARY_OPEN);
      assert s[..|head|] == head;
    }
  }

  /**
   The first scratchpad of a reply: one that does not lead stays, with all that follows; one that is closed goes and the
   search begins again; one that is not runs to the summary tag, or to the end if there is none.
   */
  lemma FirstScratchpad(head: string, inside: string)
    requires !Contains(head, ANALYSIS_OPEN)
    ensures var s := head + (ANALYSIS_OPEN + inside);
            StripAnalysis(s) ==
            if !Leads(head, inside) then s
            else
              match Find(inside, ANALYSIS_CLOSE)
              case Some(rel) => StripAnalysis(head + inside[rel + |ANALYSIS_CLOSE|..])
              case None =>
                match Find(inside, SUMMARY_OPEN)
                case Some(rel) => head + inside[rel..]
                case None => head
  {
    hide Find, IsLeading, Leads, StripAnalysis;
    var (more, start) := (ANALYSIS_OPEN + inside, |head|);
    var s := head + more;
    StripStep(s);
    OpenerIsLeading(head, inside);
    if Leads(head, inside) {
      assert s[start..] == more && s[..start] == head;
      FindPastTag(ANALYSIS_OPEN, inside, ANALYSIS_CLOSE);
      match Find(inside, ANALYSIS_CLOSE)
      case Some(rel) => TailBehindTag(head, ANALYSIS_OPEN, inside, rel + |ANALYSIS_CLOSE|);
      case None =>
        FindPastTag(ANALYSIS_OPEN, inside, SUMMARY_OPEN);
        match Find(inside, SUMMARY_OPEN)
        case Some(rel) => TailBehindTag(head, ANALYSIS_OPEN, inside, rel);
        case None => assert head + s[|s|..] == head;
    }
  }

  /** A model that forgets to close its scratchpad keeps what stands from the summary tag on. */
  lemma UnclosedRunsToTheSummary(head: string, scratch: string, rest: string)
    requires !Contains(head, ANALYSIS_OPEN) && !Contains(head, SUMMARY_OPEN) && !Contains(scratch, SUMMARY_OPEN)
    requires !Contains(scratch + SUMMARY_OPEN + rest, ANALYSIS_CLOSE)
    ensures StripAnalysis(head + ANALYSIS_OPEN + scratch + SUMMARY_OPEN + rest) == head + SUMMARY_OPEN + rest
  {
    hide Find, StripAnalysis;
    var inside := scratch + SUMMARY_OPEN + rest;
    FindAfter(scratch, SUMMARY_OPEN, rest);
    FirstScratchpad(head, inside);
    assert head + ANALYSIS_OPEN + scratch + SUMMARY_OPEN + rest == head + (ANALYSIS_OPEN + inside);
    assert head + inside[|scratch|..] == head + SUMMARY_OPEN + rest;
  }

  /** A scratchpad in front is taken out. */
  lemma ScratchpadIsStripped(scratch: string, rest: string)
    requires !Contains(scratch, ANALYSIS_CLOSE)
    ensures StripAnalysis(ANALYSIS_OPEN + scratch + ANALYSIS_CLOSE + rest) == StripAnalysis(rest)
  {
    hide Find, StripAnalysis;
    var inside := scratch + ANALYSIS_CLOSE + rest;
    NothingContained(ANALYSIS_OPEN);
    FirstScratchpad("", inside);
    assert Leads("", inside) by { NothingContained(SUMMARY_OPEN); NothingIsTrimmed(); }
    FindAfter(scratch, ANALYSIS_CLOSE, rest);
    assert ANALYSIS_OPEN + scratch + ANALYSIS_CLOSE + rest == "" + (ANALYSIS_OPEN + inside);
    assert "" + inside[|scratch| + |ANALYSIS_CLOSE|..] == rest;
  }

  lemma NothingIsTrimmed()
    ensures Trim("") == ""
  {
  }

  /** What stands between the first opening and the last closing summary tag comes under the heading. */
  lemma BlockIsUnwrapped(gap: string, inner: string, after: string)
    requires !Contains(gap, SUMMARY_OPEN) && !Contains(after, SUMMARY_CLOSE)
    ensures Unwrap(SummaryBlock(gap, inner, after)) ==
            gap + "Summary:\n" + StripLeadingScratchpad(Trim(inner)) + after
  {
    hide Find, RFind, Trim, StripLeadingScratchpad;
    var s := SummaryBlock(gap, inner, after);
    FindAfter(gap, SUMMARY_OPEN, inner + SUMMARY_CLOSE + after);
    assert s == gap + SUMMARY_OPEN + (inner + SUMMARY_CLOSE + after);
    var end := |gap + SUMMARY_OPEN + inner|;
    LastIsFound(gap + SUMMARY_OPEN + inner, SUMMARY_CLOSE, after);
    assert s[|gap| + |SUMMARY_OPEN|..end] == inner && s[end + |SUMMARY_CLOSE|..] == after && s[..|gap|] == gap;
  }

  /** Tags in the wrong order are no block. */
  lemma ReversedTagsAreKept(gap: string, mid: string, after: string)
    requires !Contains(gap + SUMMARY_CLOSE + mid, SUMMARY_OPEN) && !Contains(mid + SUMMARY_OPEN + after, SUMMARY_CLOSE)
    ensures var s := gap + SUMMARY_CLOSE + mid + SUMMARY_OPEN + after; Unwrap(s) == s
  {
    hide Find, RFind;
    var s := gap + SUMMARY_CLOSE + mid + SUMMARY_OPEN + after;
    FindAfter(gap + SUMMARY_CLOSE + mid, SUMMARY_OPEN, after);
    assert s == gap + SUMMARY_CLOSE + (mid + SUMMARY_OPEN + after);
    LastIsFound(gap, SUMMARY_CLOSE, mid + SUMMARY_OPEN + after);
  }

  /** Without both tags nothing is unwrapped. */
  lemma UntaggedIsKept(s: string)
    requires !Contains(s, SUMMARY_OPEN) || !Contains(s, SUMMARY_CLOSE)
    ensures Unwrap(s) == s
  {
    hide Find, RFind;
    RFoundIsRightmost(s, SUMMARY_CLOSE);
    if RFind(s, SUMMARY_CLOSE).Some? {
      OccurrenceIsContained(s, SUMMARY_CLOSE, RFind(s, SUMMARY_CLOSE).value);
    }
  }

  /**
   Drafting in front of a block goes with its last closing tag, a summary tag behind it goes, too, and nothing else; a
   block that begins with a numbered section is left alone.
   */
  lemma DraftGoesAlone(draft: string, text: string)
    requires IsTrimmed(draft + ANALYSIS_CLOSE + text) && !Contains(text, ANALYSIS_CLOSE)
    ensures var (inner, rest) := (draft + ANALYSIS_CLOSE + text, TrimStart(text));
            StripLeadingScratchpad(inner) ==
            if StartsNumbered(inner) then inner
            else if SUMMARY_OPEN <= rest then TrimStart(rest[|SUMMARY_OPEN|..]) else rest
  {
    hide *;
    var inner := draft + ANALYSIS_CLOSE + text;
    PeeledIs(inner);
    TrimmedExactly(inner);
    if StartsNumbered(inner) {
      NumberedIsNotPeeled(inner);
    } else {
      CloserIsUnbordered();
      LastIsFound(draft, ANALYSIS_CLOSE, text);
      assert inner[|draft| + |ANALYSIS_CLOSE|..] == text;
      DraftIs(inner, |draft|);
      TagIs(TrimStart(text));
    }
  }

  lemma CloserIsUnbordered()
    ensures Unbordered(ANALYSIS_CLOSE)
  {
  }

  lemma DraftIs(s: string, pos: nat)
    requires RFind(s, ANALYSIS_CLOSE) == Some(pos) && !StartsNumbered(s) && pos + |ANALYSIS_CLOSE| <= |s|
    ensures PeelDraft(s) == TrimStart(s[pos + |ANALYSIS_CLOSE|..])
  {
    hide RFind, StartsNumbered, TrimStart;
  }

  lemma TagIs(s: string)
    ensures PeelSummaryTag(s) == if SUMMARY_OPEN <= s then TrimStart(s[|SUMMARY_OPEN|..]) else s
  {
  }

  lemma BodyIsTrimmed(body: string)
    requires !Contains(body, SUMMARY_OPEN) && !Contains(body, ANALYSIS_CLOSE)
    ensures StripLeadingScratchpad(Trim(body)) == Trim(body)
  {
    hide *;
    PeeledIs(Trim(body));
    TrimmedExactly(body);
    TrimmedExactly(Trim(body));
    if Contains(Trim(body), SUMMARY_OPEN) {
      TrimAddsNothing(body, SUMMARY_OPEN);
    }
    if Contains(Trim(body), ANALYSIS_CLOSE) {
      TrimAddsNothing(body, ANALYSIS_CLOSE);
    }
    BodyIsNotPeeled(Trim(body));
  }

  lemma BodyIsNotPeeled(s: string)
    requires !Contains(s, SUMMARY_OPEN) && !Contains(s, ANALYSIS_CLOSE)
    ensures PeelSummaryTag(PeelDraft(s)) == s
  {
    hide RFind, TrimStart, StartsNumbered, Contains;
    if SUMMARY_OPEN <= s {
      ContainsHere(s, SUMMARY_OPEN);
    }
    RFoundIsRightmost(s, ANALYSIS_CLOSE);
    if RFind(s, ANALYSIS_CLOSE).Some? {
      OccurrenceIsContained(s, ANALYSIS_CLOSE, RFind(s, ANALYSIS_CLOSE).value);
    }
  }

  lemma HeadedIsTokenFree(gap: string, rest: string)
    requires TokenFree(gap) && TokenFree(rest)
    ensures TokenFree(gap + "Summary:\n" + rest)
  {
    hide Contains;
    var head := "ummary:\n";
    var s := gap + "Summary:\n" + rest;
    assert s == gap + (['S'] + (head + rest));
    forall k | 0 <= k < |TOKENS| ensures !Contains(s, TOKENS[k]) {
      TokenShape(k);
      PlainPrefixAddsNothing(head, rest, TOKENS[k]);
      SeparatorAddsNothing(gap, 'S', head + rest, TOKENS[k]);
    }
  }

  lemma TokenShape(k: nat)
    requires k < |TOKENS|
    ensures TOKENS[k] != "" && TOKENS[k][0] == '<' && 'S' !in TOKENS[k]
  {
  }

  lemma BlockIsCleaned(gap: string, body: string, after: string)
    requires TokenFree(gap) && TokenFree(body) && TokenFree(after) && TokenFree(Trim(body) + after)
    ensures Neutralize(Unwrap(SummaryBlock(gap, body, after))) == gap + "Summary:\n" + Trim(body) + after
  {
    hide *;
    TokenFreeTags(gap);
    TokenFreeTags(body);
    TokenFreeTags(after);
    BlockIsUnwrapped(gap, body, after);
    BodyIsTrimmed(body);
    HeadedIsTokenFree(gap, Trim(body) + after);
    assert gap + "Summary:\n" + (Trim(body) + after) == gap + "Summary:\n" + Trim(body) + after;
    NothingToNeutralize(gap + "Summary:\n" + Trim(body) + after);
  }

  /**
   A reply in the asked-for form: the scratchpad leaves no trace, the summary stands under a plain heading, and what is
   around its tags stays. Brackets that make up none of the tokens, as in quoted code, are no obstacle.
   */
  lemma WellFormedReplyIsUnwrapped(scratch: string, gap: string, body: string, after: string)
    requires !Contains(scratch, ANALYSIS_CLOSE)
    requires TokenFree(gap) && TokenFree(body) && TokenFree(after) && TokenFree(Trim(body) + after)
    ensures Cleaned(Reply(scratch, gap, body, after)) ==
            Trim(CapNewlines(gap + "Summary:\n" + Trim(body) + after, 0))
  {
    hide *;
    TokenFreeTags(gap);
    TokenFreeTags(body);
    TokenFreeTags(after);
    ReplyIs(scratch, gap, body, after);
    ScratchpadIsStripped(scratch, SummaryBlock(gap, body, after));
    BlockHasNoScratchpad(gap, body, after);
    NothingToStrip(SummaryBlock(gap, body, after));
    CleanedIs(Reply(scratch, gap, body, after));
    BlockIsCleaned(gap, body, after);
  }

  lemma ReplyIs(scratch: string, gap: string, body: string, after: string)
    ensures Reply(scratch, gap, body, after) ==
            ANALYSIS_OPEN + scratch + ANALYSIS_CLOSE + SummaryBlock(gap, body, after)
  {
    hide SummaryBlock;
  }

  /** The same for a scratchpad that is never closed: the summary is not lost with it. */
  lemma UnclosedReplyIsUnwrapped(head: string, scratch: string, body: string, after: string)
    requires TokenFree(head) && TokenFree(body) && TokenFree(after) && TokenFree(Trim(body) + after)
    requires !Contains(scratch, SUMMARY_OPEN)
    requires !Contains(scratch + SUMMARY_OPEN + (body + SUMMARY_CLOSE + after), ANALYSIS_CLOSE)
    ensures Cleaned(head + ANALYSIS_OPEN + scratch + SUMMARY_OPEN + (body + SUMMARY_CLOSE + after)) ==
            Trim(CapNewlines(head + "Summary:\n" + Trim(body) + after, 0))
  {
    hide *;
    TokenFreeTags(head);
    var rest := body + SUMMARY_CLOSE + after;
    UnclosedRunsToTheSummary(head, scratch, rest);
    CleanedIs(head + ANALYSIS_OPEN + scratch + SUMMARY_OPEN + rest);
    BlockIs(head, body, after);
    BlockIsCleaned(head, body, after);
  }

  lemma BlockIs(gap: string, body: string, after: string)
    ensures SummaryBlock(gap, body, after) == gap + SUMMARY_OPEN + (body + SUMMARY_CLOSE + after)
  {
  }

  // ---------------------------------------------------------------- the loops

  method CollapseBlankLines(text: string) returns (result: string)
    ensures result == CapNewlines(text, 0)
  {
    hide CapNewlines, Contains, Replace;
    result := text;
    while Contains(result, BLANK_RUN)
      invariant CapNewlines(result, 0) == CapNewlines(text, 0)
      decreases |result|
    {
      ShorteningKeepsCap(result, 0);
      ReplaceShortens(result);
      result := Replace(result, BLANK_RUN, "\n\n");
    }
    AheadIsRun(result);
    if BLANK_RUN <= result {
      ContainsHere(result, BLANK_RUN);
    }
    CappedHasNoRun(result, 0);
  }

  lemma {:induction false} ReplaceShortens(s: string)
    ensures |Replace(s, BLANK_RUN, "\n\n")| <= |s|
    ensures Contains(s, BLANK_RUN) ==> |Replace(s, BLANK_RUN, "\n\n")| < |s|
    decreases |s|
  {
    hide Replace, Contains;
    if s == "" {
      NothingToReplace(BLANK_RUN, "\n\n");
      NothingContained(BLANK_RUN);
    } else if BLANK_RUN <= s {
      assert s == BLANK_RUN + s[3..];
      ReplaceHit(BLANK_RUN, s[3..], "\n\n");
      ReplaceShortens(s[3..]);
    } else {
      assert s == [s[0]] + s[1..];
      ReplaceStep(s[0], s[1..], BLANK_RUN, "\n\n");
      ContainsLater(s, BLANK_RUN);
      ReplaceShortens(s[1..]);
    }
  }

  method StripAnalysisBlocks(summary: string) returns (result: string)
    ensures result == StripAnalysis(summary)
  {
    hide Find, IsLeading, StripAnalysis;
    result := summary;
    while true
      invariant StripAnalysis(result) == StripAnalysis(summary)
      decreases |result|
    {
      StripStep(result);
      match Find(result, ANALYSIS_OPEN) {
        case None => return;
        case Some(start) =>
          if !IsLeading(result, start) {
            return;
          }
          match Find(result[start..], ANALYSIS_CLOSE) {
            case Some(rel) =>
              result := result[..start] + result[start + rel + |ANALYSIS_CLOSE|..];
            case None =>
              result := result[..start] + result[UnclosedEnd(result, start)..];
              return;
          }
      }
    }
  }

  lemma StripStep(s: string)
    ensures StripAnalysis(s) ==
            match Find(s, ANALYSIS_OPEN)
            case None => s
            case Some(start) =>
              if !IsLeading(s, start) then s
              else
                match Find(s[start..], ANALYSIS_CLOSE)
                case Some(rel) => StripAnalysis(s[..start] + s[start + rel + |ANALYSIS_CLOSE|..])
                case None => s[..start] + s[UnclosedEnd(s, start)..]
  {
    hide Find, IsLeading;
  }

  method FormatCompactSummary(summary: string) returns (result: string)
    ensures result == Cleaned(summary)
  {
    hide *;
    result := StripAnalysisBlocks(summary);
    result := Unwrap(result);
    result := Neutralize(result);
    result := CollapseBlankLines(result);
    result := Trim(result);
    CleanedIs(summary);
  }
}
