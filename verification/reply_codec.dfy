/**
 * The escaping used when the prompt is embedded in the request body
 * (`jsonEscape`) and the scanner that pulls the `"response":"…"` string out
 * of the inference service's reply (`AiEngine::extractJson`).
 */
module ReplyCodec {
  import opened Text

  /** What `jsonEscape` emits for one input character. */
  function EscapeChar(c: char): string {
    if c == '"' then ['\\', '"']
    else if c == '\\' then ['\\', '\\']
    else if c == '\n' then [' ']
    else [c]
  }

  /** The whole escaped text: each character replaced by its escape. */
  function Escaped(s: string): string {
    if s == [] then [] else EscapeChar(s[0]) + Escaped(s[1..])
  }

  lemma {:induction false} EscapedAppend(a: string, b: string)
    ensures Escaped(a + b) == Escaped(a) + Escaped(b)
  {
    if a == [] {
      assert a + b == b;
    } else {
      assert (a + b)[0] == a[0] && (a + b)[1..] == a[1..] + b;
      EscapedAppend(a[1..], b);
    }
  }

  /** Escaped text never holds a newline: the request stays on one line. */
  lemma {:induction false} EscapedHasNoNewline(s: string)
    ensures '\n' !in Escaped(s)
  {
    if s != [] {
      EscapedHasNoNewline(s[1..]);
    }
  }

  /** `jsonEscape`: appends the escape of each character in turn. */
  method JsonEscape(input: string) returns (output: string)
    ensures output == Escaped(input)
  {
    output := "";
    for i := 0 to |input|
      invariant output == Escaped(input[..i])
    {
      var c := input[i];
      if c == '"' {
        output := output + ['\\', '"'];
      } else if c == '\\' {
        output := output + ['\\', '\\'];
      } else if c == '\n' {
        output := output + [' '];
      } else {
        output := output + [c];
      }
      assert input[..i + 1] == input[..i] + [c];
      EscapedAppend(input[..i], [c]);
    }
    assert input[..|input|] == input;
  }

  /** The key whose string value carries the reply text. */
  const ResponseKey: string := "\"response\":\""

  /** What the scanner copies from `t` when it starts in escape state `esc`:
      a backslash is dropped and the next character copied literally; the
      first unescaped quote ends the string; without one the scan runs to the
      end of the input. */
  function Unescaped(t: string, esc: bool): string {
    if t == [] then []
    else if esc then [t[0]] + Unescaped(t[1..], false)
    else if t[0] == '\\' then Unescaped(t[1..], true)
    else if t[0] == '"' then []
    else [t[0]] + Unescaped(t[1..], false)
  }

  /** The value of the first `"response":"` field of a reply, or "" when the
      key does not occur. */
  function Extracted(reply: string): string {
    match IndexOf(reply, ResponseKey)
    case None => ""
    case Some(p) => Unescaped(reply[p + |ResponseKey|..], false)
  }

  /** One step of the scanner on a non-empty rest. */
  lemma UnescapedStep(t: string, esc: bool)
    requires t != []
    ensures esc ==> Unescaped(t, esc) == [t[0]] + Unescaped(t[1..], false)
    ensures !esc && t[0] == '\\' ==> Unescaped(t, esc) == Unescaped(t[1..], true)
    ensures !esc && t[0] == '"' ==> Unescaped(t, esc) == []
    ensures !esc && t[0] != '\\' && t[0] != '"' ==> Unescaped(t, esc) == [t[0]] + Unescaped(t[1..], false)
  {
  }

  /** `AiEngine::extractJson`: a character loop with an escape flag. */
  method ExtractJson(reply: string) returns (result: string)
    ensures result == Extracted(reply)
  {
    var found := IndexOf(reply, ResponseKey);
    if found.None? {
      return "";
    }
    var start := found.value + |ResponseKey|;
    ghost var target := Unescaped(reply[start..], false);
    result := "";
    var escape := false;
    var i := start;
    while i < |reply|
      invariant start <= i <= |reply|
      invariant result + Unescaped(reply[i..], escape) == target
    {
      var c := reply[i];
      ghost var t := reply[i..];
      assert t[0] == c && t[1..] == reply[i + 1..];
      UnescapedStep(t, escape);
      if escape {
        assert result + Unescaped(t, true) == (result + [c]) + Unescaped(reply[i + 1..], false);
        result := result + [c];
        escape := false;
      } else if c == '\\' {
        escape := true;
      } else if c == '"' {
        assert result + [] == result;
        break;
      } else {
        assert result + Unescaped(t, false) == (result + [c]) + Unescaped(reply[i + 1..], false);
        result := result + [c];
      }
      i := i + 1;
    }
    if i == |reply| {
      assert result + [] == result;
    }
  }

  /** A reply without the key yields the empty string, never an error. */
  lemma ExtractedWithoutKey(reply: string)
    requires !Contains(reply, ResponseKey)
    ensures Extracted(reply) == ""
  {
  }

  /** Text with neither quote nor backslash is copied to the end unchanged. */
  lemma {:induction false} UnescapedPlain(t: string)
    requires '"' !in t && '\\' !in t
    ensures Unescaped(t, false) == t
  {
    if t != [] {
      UnescapedPlain(t[1..]);
    }
  }

  /** Text copied up to the first unescaped quote: what follows it is ignored. */
  lemma {:induction false} UnescapedStopsAtQuote(t: string, rest: string)
    requires '"' !in t && '\\' !in t
    ensures Unescaped(t + "\"" + rest, false) == t
  {
    if t == [] {
      assert (t + "\"" + rest)[0] == '"';
    } else {
      assert (t + "\"" + rest)[1..] == t[1..] + "\"" + rest;
      UnescapedStopsAtQuote(t[1..], rest);
    }
  }

  /** `s` with each newline replaced by a space. */
  function NewlinesToSpaces(s: string): (r: string)
    ensures |r| == |s|
    ensures forall i :: 0 <= i < |s| ==> r[i] == if s[i] == '\n' then ' ' else s[i]
  {
    seq(|s|, i requires 0 <= i < |s| => if s[i] == '\n' then ' ' else s[i])
  }

  /** The scanner undoes the escape of one character, except that a newline
      comes back as a space. */
  lemma UnescapeOne(c: char, tail: string)
    ensures Unescaped(EscapeChar(c) + tail, false) == [if c == '\n' then ' ' else c] + Unescaped(tail, false)
  {
    if c == '"' || c == '\\' {
      var t := ['\\', c] + tail;
      assert t[0] == '\\' && t[1..] == [c] + tail;
      UnescapedStep(t, false);
      assert ([c] + tail)[0] == c && ([c] + tail)[1..] == tail;
      UnescapedStep([c] + tail, true);
    } else {
      var d := if c == '\n' then ' ' else c;
      var t := [d] + tail;
      assert t[0] == d && t[1..] == tail;
      UnescapedStep(t, false);
    }
  }

  lemma NewlinesToSpacesCons(s: string)
    requires s != []
    ensures NewlinesToSpaces(s) == [if s[0] == '\n' then ' ' else s[0]] + NewlinesToSpaces(s[1..])
  {
  }

  lemma {:induction false} UnescapeEscaped(s: string, rest: string)
    ensures Unescaped(Escaped(s) + "\"" + rest, false) == NewlinesToSpaces(s)
  {
    if s == [] {
      var t := Escaped(s) + "\"" + rest;
      assert t[0] == '"';
      UnescapedStep(t, false);
    } else {
      var tail := Escaped(s[1..]) + "\"" + rest;
      assert Escaped(s) + "\"" + rest == EscapeChar(s[0]) + tail;
      UnescapeOne(s[0], tail);
      UnescapeEscaped(s[1..], rest);
      NewlinesToSpacesCons(s);
    }
  }

  /** Round trip: a reply built from `ResponseKey`, the escaped text, a closing
      quote and anything at all after it extracts to the text with newlines
      turned into spaces. */
  lemma RoundTrip(s: string, rest: string)
    ensures Extracted(ResponseKey + Escaped(s) + "\"" + rest) == NewlinesToSpaces(s)
  {
    var reply := ResponseKey + Escaped(s) + "\"" + rest;
    assert IsAt(reply, ResponseKey, 0);
    assert IndexOf(reply, ResponseKey) == Some(0);
    assert reply[|ResponseKey|..] == Escaped(s) + "\"" + rest;
    UnescapeEscaped(s, rest);
  }

  /** Hence the round trip is exact precisely for text without newlines. */
  lemma RoundTripExact(s: string, rest: string)
    ensures Extracted(ResponseKey + Escaped(s) + "\"" + rest) == s <==> '\n' !in s
  {
    RoundTrip(s, rest);
    if '\n' in s {
      var i :| 0 <= i < |s| && s[i] == '\n';
      assert NewlinesToSpaces(s)[i] != s[i];
    } else {
      assert NewlinesToSpaces(s) == s;
    }
  }
}
