/**
 * `FileCreator`: creation of text files, refused for any path that does not
 * end in ".txt" (in any letter case). Whether the file could be opened for
 * writing is given as the oracle `canOpen`.
 */
module FileCreation {
  import opened Text

  const TxtSuffix: string := ".txt"

  /** `isTxtExtension`: the last four characters, lower-cased, are ".txt";
      false for anything shorter. */
  predicate IsTxtExtension(path: string) {
    |path| >= 4 && Lower(path[|path| - 4..]) == TxtSuffix
  }

  /** The file written: its path and its whole content. */
  datatype FileWrite = FileWrite(path: string, content: string)

  datatype CreateOutcome = CreateOutcome(ok: bool, written: Option<FileWrite>)

  /** `createTxtFile`: a refused path writes nothing and fails; otherwise the
      content is written when the file opens, and the result says whether it
      did. */
  function CreateTxtFile(path: string, content: string, canOpen: bool): (r: CreateOutcome)
    ensures r.ok <==> r.written.Some?
    ensures r.ok <==> IsTxtExtension(path) && canOpen
    ensures r.written.Some? ==> r.written.value == FileWrite(path, content)
  {
    if !IsTxtExtension(path) then CreateOutcome(false, None)
    else if canOpen then CreateOutcome(true, Some(FileWrite(path, content)))
    else CreateOutcome(false, None)
  }

  /** The check ignores letter case. */
  lemma IsTxtExtensionIgnoresCase(path: string)
    ensures IsTxtExtension(Lower(path)) == IsTxtExtension(path)
  {
    if |path| >= 4 {
      LowerSlice(path, |path| - 4, |path|);
      LowerIdempotent(path[|path| - 4..]);
    }
  }

  /** Any name with ".txt" appended passes the check. */
  lemma AppendedSuffixAccepted(name: string)
    ensures IsTxtExtension(name + TxtSuffix)
  {
    var p := name + TxtSuffix;
    assert p[|p| - 4..] == TxtSuffix;
    assert Lower(TxtSuffix) == TxtSuffix;
  }

  /** Accepted: "A.TXT" and ".txt". Refused: "a.txt.bak" and anything shorter
      than four characters. */
  lemma TxtExtensionCases(short: string)
    requires |short| < 4
    ensures IsTxtExtension("A.TXT")
    ensures IsTxtExtension(".txt")
    ensures !IsTxtExtension("a.txt.bak")
    ensures !IsTxtExtension(short)
  {
    assert "A.TXT"[1..] == ".TXT";
    assert Lower(".TXT") == ".txt";
    assert ".txt"[0..] == ".txt";
    assert Lower(".txt") == ".txt";
    assert "a.txt.bak"[5..] == ".bak";
    assert Lower(".bak")[1] == 'b';
  }
}
