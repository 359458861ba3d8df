/**
 C strings as the symbol file code handles them: `strtok_r`, the tokens it finds, and text that is
 put together from tokens.
 */
module CText {
  import opened OrderedKeys

  const NUL: char := '\0'

  /** The part of a buffer that C takes for the string: everything before the first NUL. */
  function CString(s: string): (r: string)
    ensures r <= s && NUL !in r
    ensures NUL !in s ==> r == s
    ensures NUL in s ==> |r| < |s| && s[|r|] == NUL
  {
    if s == [] || s[0] == NUL then [] else [s[0]] + CString(s[1..])
  }

  /** What is left of s behind the breaks it starts with. */
  function SkipBreaks(s: string, breaks: set<char>): (r: string)
    ensures |r| <= |s|
    ensures r != [] ==> r[0] !in breaks
    ensures forall c <- r :: c in s
  {
    if s != [] && s[0] in breaks then SkipBreaks(s[1..], breaks) else s
  }

  /** The beginning of s up to its first break. */
  function Word(s: string, breaks: set<char>): (r: string)
    ensures r <= s
    ensures forall c <- r :: c !in breaks
    ensures |r| < |s| ==> s[|r|] in breaks
  {
    if s == [] || s[0] in breaks then [] else [s[0]] + Word(s[1..], breaks)
  }

  datatype Token = Token(text: string, cursor: string)

  /** `strtok_r` on a string: the first token, and where the next call goes on; None is a null pointer. */
  function Strtok(s: string, breaks: set<char>): (r: Option<Token>)
    ensures r.Some? ==> IsToken(r.value.text, breaks) && |r.value.cursor| < |s|
    ensures r.Some? ==> forall c <- r.value.text + r.value.cursor :: c in s
  {
    var from := SkipBreaks(s, breaks);
    if from == [] then None
    else
      var text := Word(from, breaks);
      Some(Token(text, if |text| < |from| then from[|text| + 1..] else []))
  }

  predicate IsToken(t: string, breaks: set<char>) {
    t != [] && forall c <- t :: c !in breaks
  }

  /** All tokens of s: what calling `strtok_r` until it returns a null pointer gives. */
  function Tokens(s: string, breaks: set<char>): (r: seq<string>)
    ensures forall t <- r :: IsToken(t, breaks)
    ensures forall t <- r, c <- t :: c in s
    decreases |s|
  {
    match Strtok(s, breaks)
    case None => []
    case Some(token) => [token.text] + Tokens(token.cursor, breaks)
  }

  /** The tokens from the one `strtok_r` has just returned. */
  ghost function Remaining(token: Option<Token>, breaks: set<char>): seq<string> {
    if token.None? then [] else [token.value.text] + Tokens(token.value.cursor, breaks)
  }

  lemma {:induction false} RemainingFrom(s: string, breaks: set<char>)
    ensures Tokens(s, breaks) == Remaining(Strtok(s, breaks), breaks)
  {
  }

  lemma {:induction false} RemainingStep(token: Option<Token>, breaks: set<char>)
    requires token.Some?
    ensures Remaining(token, breaks) != [] && Remaining(token, breaks)[0] == token.value.text
    ensures Remaining(token, breaks)[1..] == Tokens(token.value.cursor, breaks)
  {
  }

  // ----- texts with a break in them

  lemma {:induction false} SkipBreaksThenMore(a: string, c: string, breaks: set<char>)
    ensures SkipBreaks(a + c, breaks)
         == if SkipBreaks(a, breaks) == [] then SkipBreaks(c, breaks) else SkipBreaks(a, breaks) + c
  {
    if a == [] {
      assert a + c == c;
    } else if a[0] in breaks {
      assert (a + c)[1..] == a[1..] + c;
      SkipBreaksThenMore(a[1..], c, breaks);
    }
  }

  lemma {:induction false} WordThenBreak(a: string, b: char, c: string, breaks: set<char>)
    requires b in breaks
    ensures Word(a + [b] + c, breaks) == Word(a, breaks)
  {
    if a != [] && a[0] !in breaks {
      assert (a + [b] + c)[1..] == a[1..] + [b] + c;
      WordThenBreak(a[1..], b, c, breaks);
    }
  }

  lemma {:induction false} StrtokThenBreak(a: string, b: char, c: string, breaks: set<char>)
    requires b in breaks
    ensures var r := Strtok(a, breaks);
      Strtok(a + [b] + c, breaks) == if r.None? then Strtok(c, breaks)
        else Some(Token(r.value.text,
                  if |r.value.text| == |SkipBreaks(a, breaks)| then c else r.value.cursor + [b] + c))
  {
    assert a + [b] + c == a + ([b] + c);
    SkipBreaksThenMore(a, [b] + c, breaks);
    var from := SkipBreaks(a, breaks);
    if from == [] {
      assert ([b] + c)[1..] == c;
    } else {
      assert from + ([b] + c) == from + [b] + c;
      WordThenBreak(from, b, c, breaks);
      var text := Word(from, breaks);
      assert (from + [b] + c)[|text| + 1..] == if |text| == |from| then c else from[|text| + 1..] + [b] + c;
    }
  }

  /** The tokens of two texts with a break between them are the tokens of both. */
  lemma {:induction false} TokensOfBoth(a: string, b: char, c: string, breaks: set<char>)
    requires b in breaks
    ensures Tokens(a + [b] + c, breaks) == Tokens(a, breaks) + Tokens(c, breaks)
    decreases |a|
  {
    hide Strtok;
    StrtokThenBreak(a, b, c, breaks);
    var r := Strtok(a, breaks);
    if r.Some? {
      if |r.value.text| == |SkipBreaks(a, breaks)| {
        NothingAfter(a, breaks);
      } else {
        TokensOfBoth(r.value.cursor, b, c, breaks);
      }
      assert [r.value.text] + Tokens(r.value.cursor, breaks) + Tokens(c, breaks)
          == [r.value.text] + (Tokens(r.value.cursor, breaks) + Tokens(c, breaks));
    }
  }

  lemma {:induction false} NothingAfter(a: string, breaks: set<char>)
    requires var r := Strtok(a, breaks); r.Some? && |r.value.text| == |SkipBreaks(a, breaks)|
    ensures Tokens(Strtok(a, breaks).value.cursor, breaks) == []
  {
  }

  /** A token is found as it is, whether the text ends there or goes on behind a break. */
  lemma {:induction false} StrtokOfToken(t: string, breaks: set<char>)
    requires IsToken(t, breaks)
    ensures Strtok(t, breaks) == Some(Token(t, [])) && SkipBreaks(t, breaks) == t
  {
    WordOfToken(t, breaks);
  }

  lemma {:induction false} WordOfToken(t: string, breaks: set<char>)
    requires forall c <- t :: c !in breaks
    ensures Word(t, breaks) == t
  {
    if t != [] {
      WordOfToken(t[1..], breaks);
    }
  }

  lemma {:induction false} StrtokOfTokenThenBreak(t: string, b: char, c: string, breaks: set<char>)
    requires IsToken(t, breaks) && b in breaks
    ensures Strtok(t + [b] + c, breaks) == Some(Token(t, c))
  {
    StrtokOfToken(t, breaks);
    StrtokThenBreak(t, b, c, breaks);
  }

  // ----- texts made of tokens

  /** The tokens with one space between any two. */
  function Joined(ts: seq<string>): string {
    if |ts| == 0 then [] else if |ts| == 1 then ts[0] else ts[0] + [' '] + Joined(ts[1..])
  }

  lemma {:induction false} TokensOfJoined(ts: seq<string>, breaks: set<char>)
    requires ' ' in breaks && forall t <- ts :: IsToken(t, breaks)
    ensures Tokens(Joined(ts), breaks) == ts
  {
    if |ts| == 1 {
      StrtokOfToken(ts[0], breaks);
    } else if |ts| > 1 {
      TokensOfToken(ts[0], breaks);
      TokensOfBoth(ts[0], ' ', Joined(ts[1..]), breaks);
      TokensOfJoined(ts[1..], breaks);
    }
  }

  lemma {:induction false} TokensOfToken(t: string, breaks: set<char>)
    requires IsToken(t, breaks)
    ensures Tokens(t, breaks) == [t]
  {
    StrtokOfToken(t, breaks);
  }

  lemma {:induction false} JoinedBoth(a: seq<string>, b: seq<string>)
    ensures Joined(a + b) == if a == [] then Joined(b) else if b == [] then Joined(a) else Joined(a) + [' '] + Joined(b)
  {
    if a == [] {
      assert a + b == b;
    } else if b == [] {
      assert a + b == a;
    } else if |a| == 1 {
      assert (a + b)[1..] == b;
    } else {
      assert (a + b)[1..] == a[1..] + b;
      JoinedBoth(a[1..], b);
      assert a[0] + [' '] + (Joined(a[1..]) + [' '] + Joined(b)) == Joined(a) + [' '] + Joined(b);
    }
  }
}
