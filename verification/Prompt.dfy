/** The answer to a [y/N] prompt. */
module Prompt {

  /** White space as Unicode has it. */
  predicate IsSpace(c: char)
  {
    '\t' <= c <= '\r' || c == ' ' || c == '\U{85}' || c == '\U{A0}' || c == '\U{1680}'
    || '\U{2000}' <= c <= '\U{200A}' || c == '\U{2028}' || c == '\U{2029}' || c == '\U{202F}' || c == '\U{205F}'
    || c == '\U{3000}'
  }

  function TrimLeft(s: string): string
  {
    if s != "" && IsSpace(s[0]) then TrimLeft(s[1..]) else s
  }

  function TrimRight(s: string): string
  {
    if s != "" && IsSpace(s[|s| - 1]) then TrimRight(s[..|s| - 1]) else s
  }

  function LowerChar(c: char): char
  {
    if 'A' <= c <= 'Z' then c - 'A' + 'a' else c
  }

  function Lower(s: string): (r: string)
    ensures |r| == |s| && forall i :: 0 <= i < |s| ==> r[i] == LowerChar(s[i])
  {
    if s == "" then "" else Lower(s[..|s| - 1]) + [LowerChar(s[|s| - 1])]
  }

  /** The line read from the user means yes. */
  predicate Confirms(line: string)
  {
    var word := Lower(TrimRight(TrimLeft(line)));
    word == "y" || word == "yes"
  }

  predicate Blank(s: string)
  {
    forall c :: c in s ==> IsSpace(c)
  }

  /** `word` is y or yes, in capitals or not. */
  predicate IsYes(word: string)
  {
    && (|word| == 1 || |word| == 3)
    && (word[0] == 'y' || word[0] == 'Y')
    && (|word| == 3 ==> (word[1] == 'e' || word[1] == 'E') && (word[2] == 's' || word[2] == 'S'))
  }

  lemma LowerIsYes(word: string)
    ensures IsYes(word) <==> Lower(word) == "y" || Lower(word) == "yes"
  {
    if |word| == 1 {
      assert Lower(word) == [LowerChar(word[0])];
    } else if |word| == 3 {
      assert Lower(word) == [LowerChar(word[0]), LowerChar(word[1]), LowerChar(word[2])];
    }
  }

  lemma {:induction false} TrimLeftTakesBlanks(s: string) returns (pre: string)
    ensures s == pre + TrimLeft(s) && Blank(pre)
  {
    if s != "" && IsSpace(s[0]) {
      var rest := TrimLeftTakesBlanks(s[1..]);
      pre := [s[0]] + rest;
      assert s == [s[0]] + s[1..];
    } else {
      pre := "";
    }
  }

  lemma {:induction false} TrimRightTakesBlanks(s: string) returns (post: string)
    ensures s == TrimRight(s) + post && Blank(post)
  {
    if s != "" && IsSpace(s[|s| - 1]) {
      var rest := TrimRightTakesBlanks(s[..|s| - 1]);
      post := rest + [s[|s| - 1]];
      assert s == s[..|s| - 1] + [s[|s| - 1]];
    } else {
      post := "";
    }
  }

  lemma {:induction false} TrimLeftStops(pre: string, s: string)
    requires Blank(pre) && s != "" && !IsSpace(s[0])
    ensures TrimLeft(pre + s) == s
  {
    if pre == "" {
      assert pre + s == s;
    } else {
      assert (pre + s)[1..] == pre[1..] + s;
      TrimLeftStops(pre[1..], s);
    }
  }

  lemma {:induction false} TrimRightStops(s: string, post: string)
    requires Blank(post) && s != "" && !IsSpace(s[|s| - 1])
    ensures TrimRight(s + post) == s
  {
    if post == "" {
      assert s + post == s;
    } else {
      assert (s + post)[..|s + post| - 1] == s + post[..|post| - 1];
      TrimRightStops(s, post[..|post| - 1]);
    }
  }

  predicate YesAmidBlanks(line: string, pre: string, word: string, post: string)
  {
    line == pre + word + post && Blank(pre) && Blank(post) && IsYes(word)
  }

  lemma YesAmidBlanksConfirms(line: string, pre: string, word: string, post: string)
    requires YesAmidBlanks(line, pre, word, post)
    ensures Confirms(line)
  {
    assert line == pre + (word + post) && (word + post)[0] == word[0];
    TrimLeftStops(pre, word + post);
    TrimRightStops(word, post);
    LowerIsYes(word);
  }

  /** A reply confirms exactly when it is y or yes, in capitals or not, between white space. */
  lemma ConfirmsExactlyYes(line: string)
    ensures Confirms(line) <==> exists pre, word, post :: YesAmidBlanks(line, pre, word, post)
  {
    if Confirms(line) {
      var pre := TrimLeftTakesBlanks(line);
      var post := TrimRightTakesBlanks(TrimLeft(line));
      var word := TrimRight(TrimLeft(line));
      LowerIsYes(word);
      assert line == pre + word + post;
      assert YesAmidBlanks(line, pre, word, post);
    }
    if pre, word, post :| YesAmidBlanks(line, pre, word, post) { YesAmidBlanksConfirms(line, pre, word, post); }
  }

  /** A reply that merely starts with y does not. */
  lemma StartingWithYIsNotEnough()
    ensures !Confirms("yep\n")
  {
    var line := "yep\n";
    assert TrimLeft(line) == line;
    assert line[..3] == "yep" && TrimRight(line) == TrimRight(line[..3]) == "yep";
    assert |Lower("yep")| == 3 && Lower("yep")[2] == 'p';
  }
}
