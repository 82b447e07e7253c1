// `forge add`: a dependency string becomes a `"key" = "value"` line in the
// [dependencies] or [test-dependencies] section of forge.toml. The file's
// existence, its text and the outcome of writing it back are inputs.
// Positions are counted in characters; every position the edit uses lies
// just after an ASCII character, so it is the same place as the byte
// offset the tool computes.

module Add {
  import opened Errors
  import opened Strings
  import opened Paths
  import Maven

  /** `dep.split(':')` with exactly three parts gives key "p0:p1" and value
      p2; anything else is a key on its own at version "latest". */
  function SplitDependency(dep: string): (kv: (string, string))
    ensures |Split(dep, ':')| == 3 ==>
              kv.0 + ":" + kv.1 == dep && ':' !in kv.1 && kv.0 == Split(dep, ':')[0] + ":" + Split(dep, ':')[1]
    ensures |Split(dep, ':')| != 3 ==> kv == (dep, "latest")
  {
    var parts := Split(dep, ':');
    if |parts| == 3 then
      assert parts[1..] == [parts[1], parts[2]] && parts[1..][1..] == [parts[2]];
      assert Join(parts[1..][1..], ':') == parts[2];
      assert Join(parts[1..], ':') == parts[1] + ":" + parts[2];
      assert Join(parts, ':') == parts[0] + ":" + (parts[1] + ":" + parts[2]);
      assert parts[0] + ":" + (parts[1] + ":" + parts[2]) == parts[0] + ":" + parts[1] + ":" + parts[2];
      (parts[0] + ":" + parts[1], parts[2])
    else (dep, "latest")
  }

  /** The section a dependency goes to. */
  function SectionHeader(isTest: bool): string
  {
    if isTest then "[test-dependencies]" else "[dependencies]"
  }

  function Quoted(s: string): string
  {
    "\"" + s + "\""
  }

  /** The inserted line: `"key" = "value"`. */
  function DependencyLine(key: string, value: string): (line: string)
    ensures |Quoted(key)| <= |line| && line[..|Quoted(key)|] == Quoted(key)
  {
    var line := Quoted(key) + " = " + Quoted(value);
    assert line == Quoted(key) + (" = " + Quoted(value));
    line
  }

  /** Where the line goes when the header is present at `pos`: just after
      the first '\n' from `pos` on, or `pos + 1` when no '\n' follows. */
  function InsertPosition(content: string, pos: nat): (p: nat)
    requires pos < |content|
    ensures p <= |content|
    ensures '\n' in content[pos..] ==> pos < p && content[p - 1] == '\n' && '\n' !in content[pos..p - 1]
    ensures '\n' !in content[pos..] ==> p == pos + 1
  {
    match FindChar(content[pos..], '\n')
    case None => pos + 1
    case Some(i) =>
      assert content[pos..][..i] == content[pos..pos + i];
      i + pos + 1
  }

  /** The text with `line` placed in `section`: right after the header's
      line (inside the header when no newline follows it), or, when the
      header does not occur, appended with the header before it. All the
      old text is kept, in order. */
  function PlaceLine(content: string, section: string, line: string): (r: string)
    requires section != []
    ensures FindSub(content, section).Some? ==>
              var pos := FindSub(content, section).value;
              exists p :: pos < p <= |content| && r == content[..p] + line + "\n" + content[p..] &&
                          (('\n' in content[pos..] && content[p - 1] == '\n' && '\n' !in content[pos..p - 1]) ||
                           ('\n' !in content[pos..] && p == pos + 1))
    ensures FindSub(content, section).None? ==>
              r == content + "\n" + section + "\n" + line + "\n" && forall j :: 0 <= j ==> !OccursAt(content, section, j)
  {
    match FindSub(content, section)
    case Some(pos) =>
      var p := InsertPosition(content, pos);
      assert content[..p] + (line + "\n") + content[p..] == content[..p] + line + "\n" + content[p..];
      content[..p] + (line + "\n") + content[p..]
    case None =>
      assert content + ("\n" + section + "\n" + line + "\n") == content + "\n" + section + "\n" + line + "\n";
      content + ("\n" + section + "\n" + line + "\n")
  }

  /** The new text of forge.toml, or None when the key is already quoted
      somewhere in it and the file is left alone. */
  function AddToContent(content: string, dep: string, isTest: bool): (r: Option<string>)
    ensures r.None? <==> Contains(content, Quoted(SplitDependency(dep).0))
    ensures r.Some? ==> r.value == PlaceLine(content, SectionHeader(isTest),
                                              DependencyLine(SplitDependency(dep).0, SplitDependency(dep).1))
  {
    var kv := SplitDependency(dep);
    if Contains(content, Quoted(kv.0)) then None
    else Some(PlaceLine(content, SectionHeader(isTest), DependencyLine(kv.0, kv.1)))
  }

  /** Placing a line puts it, whole, into the text. */
  lemma PlacedLineOccurs(content: string, section: string, line: string, prefix: string)
    requires section != []
    requires |prefix| <= |line| && line[..|prefix|] == prefix
    ensures Contains(PlaceLine(content, section, line), prefix)
  {
    var rest := line[|prefix|..];
    assert line == prefix + rest;
    var r := PlaceLine(content, section, line);
    match FindSub(content, section)
    case Some(pos) =>
      var p :| pos < p <= |content| && r == content[..p] + line + "\n" + content[p..];
      assert r == content[..p] + prefix + (rest + "\n" + content[p..]);
      ContainsMiddle(content[..p], prefix, rest + "\n" + content[p..]);
    case None =>
      assert r == content + "\n" + section + "\n" + prefix + (rest + "\n");
      ContainsMiddle(content + "\n" + section + "\n", prefix, rest + "\n");
  }

  /** Adding the same dependency twice changes the file once: after the
      first addition the quoted key is in the text. */
  lemma AddIdempotent(content: string, dep: string, isTest: bool)
    requires AddToContent(content, dep, isTest).Some?
    ensures AddToContent(AddToContent(content, dep, isTest).value, dep, isTest).None?
  {
    var kv := SplitDependency(dep);
    PlacedLineOccurs(content, SectionHeader(isTest), DependencyLine(kv.0, kv.1), Quoted(kv.0));
  }

  /** What `forge add g:a:v` writes for colon-free g, a and v is the entry
      the resolver reads back as that coordinate. */
  lemma AddedCoordinateParses(c: Maven.Coordinate)
    requires ':' !in c.groupId && ':' !in c.artifactId && ':' !in c.version
    ensures var (key, value) := SplitDependency(Maven.Display(c));
            Maven.ParseCoordinate(key, value) == Ok(c)
  {
    Maven.DisplaySplit(c);
    Maven.ParseDisplayRoundTrip(c.groupId, c.artifactId, c.version);
  }

  /** forge.toml as found on disk. */
  datatype TomlFile = Missing | ReadFailed(message: string) | Present(content: string)

  /** `cmd_add`: the outcome (None for success, or the error message) and
      the text written to forge.toml, if any. */
  method CmdAdd(dep: string, isTest: bool, file: TomlFile, write: IoOutcome)
    returns (r: Option<string>, written: Option<string>)
    ensures file.Missing? ==> r == Some("No se encontró forge.toml en el directorio actual.") && written.None?
    ensures file.ReadFailed? ==> r == Some(file.message) && written.None?
    ensures file.Present? ==> written == AddToContent(file.content, dep, isTest)
    ensures file.Present? ==> (r.None? <==> written.None? || write.Succeeded?)
    ensures file.Present? && written.Some? && write.Failed? ==> r == Some(write.message)
  {
    if file.Missing? {
      return Some("No se encontró forge.toml en el directorio actual."), None;
    }
    if file.ReadFailed? {
      return Some(file.message), None;
    }
    var edited := AddToContent(file.content, dep, isTest);
    if edited.None? {
      return None, None;
    }
    written := edited;
    if write.Failed? {
      return Some(write.message), written;
    }
    r := None;
  }
}
