/**
 * Reading an action tag out of the inference reply: which verb of a module's
 * closed set the reply mentions, and the argument of a `[VERB:ARGUMENT]` tag.
 *
 * Verbs are found with `resp.find("VERB")`, which is case-sensitive and looks
 * at the whole reply. The argument runs from the first ':' anywhere in the
 * reply to the first ']' anywhere in it, and is then trimmed of spaces.
 */
module ActionTags {
  import opened Text

  /** 2^64: `size_t` arithmetic wraps modulo this. */
  const SizeModulus: int := 0x1_0000_0000_0000_0000

  /** `str.substr(pos, count)`: at most `count` characters from `pos`. */
  function Substr(str: string, pos: nat, count: nat): (r: string)
    requires pos <= |str|
    ensures r == str[pos..pos + (if count < |str| - pos then count else |str| - pos)]
  {
    if count < |str| - pos then str[pos..pos + count] else str[pos..]
  }

  /** `resp.substr(s + 1, e - s - 1)` with `s = resp.find(":")` and
      `e = resp.find("]")`, the length computed in wrapping `size_t`
      arithmetic; empty when either character is missing. */
  function RawArgument(resp: string): string {
    match (IndexOfChar(resp, ':'), IndexOfChar(resp, ']'))
    case (Some(s), Some(e)) => Substr(resp, s + 1, (e - s - 1) % SizeModulus)
    case _ => ""
  }

  /** The argument after the two `erase` calls that trim spaces. */
  function Argument(resp: string): string {
    Trim(RawArgument(resp))
  }

  /** `e - s - 1` in `size_t`: the true length when `s < e`, and a wrapped
      value of at least `SizeModulus - s - 1` when `e < s`. */
  lemma WrappedLength(s: nat, e: nat)
    requires s < SizeModulus && e < SizeModulus && s != e
    ensures (e - s - 1) % SizeModulus == if s < e then e - s - 1 else SizeModulus + e - s - 1
  {
    var x := e - s - 1;
    if s < e {
      assert 0 <= x < SizeModulus;
    } else {
      assert -SizeModulus <= x < 0;
      assert 0 <= x + SizeModulus < SizeModulus;
    }
  }

  /** The `substr` call with the wrapped length: the text between the two
      positions, or the rest of the string after `s` when `e` comes first. */
  lemma SubstrBetween(resp: string, s: nat, e: nat)
    requires |resp| < SizeModulus && s < |resp| && e < |resp| && s != e
    ensures Substr(resp, s + 1, (e - s - 1) % SizeModulus) == if s < e then resp[s + 1..e] else resp[s + 1..]
  {
    WrappedLength(s, e);
  }

  /** With both characters present, the argument is the text between them,
      or the rest of the reply when the length wraps. */
  lemma RawArgumentPresent(resp: string, s: nat, e: nat)
    requires |resp| < SizeModulus
    requires IndexOfChar(resp, ':') == Some(s) && IndexOfChar(resp, ']') == Some(e)
    ensures RawArgument(resp) == if s < e then resp[s + 1..e] else resp[s + 1..]
  {
    assert resp[s] != resp[e];
    SubstrBetween(resp, s, e);
  }

  /** The three cases of the extraction. The wrap-around case needs only that
      the reply is no longer than a `std::string` can be. */
  lemma RawArgumentCases(resp: string)
    requires |resp| < SizeModulus
    ensures IndexOfChar(resp, ':').None? || IndexOfChar(resp, ']').None? ==> RawArgument(resp) == ""
    ensures IndexOfChar(resp, ':').Some? && IndexOfChar(resp, ']').Some? ==>
      var s := IndexOfChar(resp, ':').value;
      var e := IndexOfChar(resp, ']').value;
      RawArgument(resp) == if s < e then resp[s + 1..e] else resp[s + 1..]
  {
    var os, oe := IndexOfChar(resp, ':'), IndexOfChar(resp, ']');
    if os.Some? && oe.Some? {
      RawArgumentPresent(resp, os.value, oe.value);
    }
  }

  /** With the colon before the bracket the argument is the trimmed text
      strictly between them. */
  lemma ArgumentBetween(resp: string, s: nat, e: nat)
    requires |resp| < SizeModulus
    requires IndexOfChar(resp, ':') == Some(s) && IndexOfChar(resp, ']') == Some(e) && s < e
    ensures Argument(resp) == Trim(resp[s + 1..e])
  {
    RawArgumentPresent(resp, s, e);
  }

  /** A reply with no ':' or no ']' has the empty argument. */
  lemma ArgumentMissing(resp: string)
    requires ':' !in resp || ']' !in resp
    ensures Argument(resp) == ""
  {
  }

  /** An argument that is all spaces is empty after trimming. */
  lemma BlankArgumentIsEmpty(resp: string)
    requires AllSpaces(RawArgument(resp))
    ensures Argument(resp) == ""
  {
    TrimAllSpaces(RawArgument(resp));
  }

  /** The trimmed argument is a piece of the reply with no space at either end. */
  lemma ArgumentShape(resp: string)
    ensures Argument(resp) == [] || (Argument(resp)[0] != ' ' && Argument(resp)[|Argument(resp)| - 1] != ' ')
  {
    TrimSpec(RawArgument(resp));
  }

  /** A well-formed tag: when nothing before the colon holds ':' or ']' and
      the argument holds neither, the argument is read back, trimmed, whatever
      follows the tag. */
  lemma TagArgument(head: string, arg: string, tail: string)
    requires ':' !in head && ']' !in head && ':' !in arg && ']' !in arg
    requires |head| + |arg| + |tail| + 2 < SizeModulus
    ensures Argument(head + ":" + arg + "]" + tail) == Trim(arg)
  {
    var r := head + ":" + arg + "]" + tail;
    var s, e := |head|, |head| + 1 + |arg|;
    assert r[s] == ':' && r[..s] == head;
    IndexOfCharAt(r, ':', s);
    assert r[e] == ']' && r[..e] == head + ":" + arg;
    IndexOfCharAt(r, ']', e);
    ArgumentBetween(r, s, e);
    assert r[s + 1..e] == arg;
  }

  /** For example, `"blah [KILL:firefox] blah"` carries `firefox`. */
  lemma KillTagExample()
    ensures Argument("blah [KILL:firefox] blah") == "firefox"
  {
    assert "blah [KILL:firefox] blah" == "blah [KILL" + ":" + "firefox" + "]" + " blah";
    TagArgument("blah [KILL", "firefox", " blah");
    TrimIdentity("firefox");
  }

  /** A bracket before the colon: the length wraps and the argument is the rest
      of the reply after the colon. */
  lemma BracketBeforeColonExample()
    ensures Argument("] x:abc") == "abc"
  {
    var r := "] x:abc";
    assert r[..3] == "] x";
    IndexOfCharAt(r, ':', 3);
    IndexOfCharAt(r, ']', 0);
    RawArgumentCases(r);
    assert r[4..] == "abc";
    TrimIdentity("abc");
  }

  // ---------------------------------------------------------------------
  // Verbs
  // ---------------------------------------------------------------------

  /** Each module's verbs, in the order its if-chain tries them. */
  const CpuVerbs: seq<string> := ["CHECK", "BOOST", "RESTORE"]
  const MemoryVerbs: seq<string> := ["CHECK", "CLEAN"]
  const MonitorVerbs: seq<string> := ["START_MONITOR", "STOP_MONITOR", "STATUS_MONITOR"]
  const ProcessVerbs: seq<string> := ["LIST", "KILL"]
  const FileControlVerbs: seq<string> := ["SEARCH", "OPEN", "DELETE"]

  /** Index of the first verb of `verbs` that the reply contains, or
      `|verbs|` when it contains none. */
  function FirstVerb(resp: string, verbs: seq<string>): (r: nat)
    ensures r <= |verbs|
    ensures r < |verbs| ==> Contains(resp, verbs[r])
    ensures forall j :: 0 <= j < r ==> !Contains(resp, verbs[j])
  {
    if verbs == [] then 0
    else if Contains(resp, verbs[0]) then 0
    else 1 + FirstVerb(resp, verbs[1..])
  }

  /** `FirstVerb` over two verbs is the two-armed if-chain. */
  lemma FirstVerbOfTwo(resp: string, a: string, b: string)
    ensures FirstVerb(resp, [a, b]) ==
      if Contains(resp, a) then 0 else if Contains(resp, b) then 1 else 2
  {
    assert [a, b][1..] == [b] && [b][1..] == [];
  }

  /** `FirstVerb` over three verbs is the three-armed if-chain. */
  lemma FirstVerbOfThree(resp: string, a: string, b: string, c: string)
    ensures FirstVerb(resp, [a, b, c]) ==
      if Contains(resp, a) then 0 else if Contains(resp, b) then 1 else if Contains(resp, c) then 2 else 3
  {
    assert [a, b, c][1..] == [b, c];
    FirstVerbOfTwo(resp, b, c);
  }
}
