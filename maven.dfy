// Maven dependency resolution: coordinates and the addresses built from
// them, the scan of a POM's event stream for compile-scope dependencies,
// and the resolver's guards (visited set, depth limit) around downloads.
// The XML tokeniser, HTTP and the disk are inputs: a POM arrives as its
// event stream, Maven Central as a table of answers per address, and the
// jars present on disk as a set of paths.

module Maven {
  import opened Errors
  import opened Collections
  import opened Strings
  import opened Paths

  const MavenCentralUrl: string := "https://repo1.maven.org/maven2"

  /** groupId:artifactId:version. */
  datatype Coordinate = Coordinate(groupId: string, artifactId: string, version: string)

  /** `MavenCoordinate::parse`: the key must split on ':' into exactly two
      parts, group and artifact; the version is taken as given. */
  function ParseCoordinate(key: string, version: string): (r: Result<Coordinate>)
    ensures r.Err? ==> r.error == DependencyResolutionFailed("'" + key + "' — Formato esperado: 'groupId:artifactId'")
    ensures r.Ok? ==> ':' !in r.value.groupId && ':' !in r.value.artifactId
    ensures r.Ok? ==> key == r.value.groupId + ":" + r.value.artifactId && r.value.version == version
  {
    var parts := Split(key, ':');
    if |parts| != 2 then
      Err(DependencyResolutionFailed("'" + key + "' — Formato esperado: 'groupId:artifactId'"))
    else
      assert Join(parts, ':') == parts[0] + ":" + parts[1];
      Ok(Coordinate(parts[0], parts[1], version))
  }

  /** `display()`: "group:artifact:version". */
  function Display(c: Coordinate): string
  {
    c.groupId + ":" + c.artifactId + ":" + c.version
  }

  /** Parsing "g:a" with version v, for colon-free g and a, succeeds and
      displays as "g:a:v"; with the Ok case of ParseCoordinate this makes
      the parse succeed exactly on keys with one ':'. */
  lemma ParseDisplayRoundTrip(g: string, a: string, v: string)
    requires ':' !in g && ':' !in a
    ensures ParseCoordinate(g + ":" + a, v) == Ok(Coordinate(g, a, v))
    ensures Display(ParseCoordinate(g + ":" + a, v).value) == g + ":" + a + ":" + v
  {
    assert Join([g, a], ':') == g + ":" + a;
    SplitJoin([g, a], ':');
  }

  /** A displayed coordinate with colon-free fields splits back into its
      three fields. */
  lemma DisplaySplit(c: Coordinate)
    requires ':' !in c.groupId && ':' !in c.artifactId && ':' !in c.version
    ensures Split(Display(c), ':') == [c.groupId, c.artifactId, c.version]
  {
    var parts := [c.groupId, c.artifactId, c.version];
    assert parts[1..] == [c.artifactId, c.version] && parts[1..][1..] == [c.version];
    assert Join(parts[1..], ':') == c.artifactId + ":" + c.version;
    assert Join(parts, ':') == Display(c);
    SplitJoin([c.groupId, c.artifactId, c.version], ':');
  }

  /** `jar_filename()`. */
  function JarFilename(c: Coordinate): string
  {
    c.artifactId + "-" + c.version + ".jar"
  }

  /** The directory of an artifact's version on Maven Central: the base,
      the group with every '.' turned into '/', the artifact, the version. */
  function ArtifactDir(c: Coordinate): string
  {
    MavenCentralUrl + "/" + ReplaceChar(c.groupId, '.', '/') + "/" + c.artifactId + "/" + c.version + "/"
  }

  /** `jar_url()`. */
  function JarUrl(c: Coordinate): string
  {
    MavenCentralUrl + "/" + ReplaceChar(c.groupId, '.', '/') + "/" + c.artifactId + "/" + c.version + "/"
      + c.artifactId + "-" + c.version + ".jar"
  }

  /** `pom_url()`. */
  function PomUrl(c: Coordinate): string
  {
    MavenCentralUrl + "/" + ReplaceChar(c.groupId, '.', '/') + "/" + c.artifactId + "/" + c.version + "/"
      + c.artifactId + "-" + c.version + ".pom"
  }

  /** The jar address is the artifact directory followed by the jar's file
      name; the group part has no '.' left; the POM address is the jar
      address with ".jar" replaced by ".pom". */
  lemma UrlShapes(c: Coordinate)
    ensures JarUrl(c) == ArtifactDir(c) + JarFilename(c)
    ensures '.' !in ReplaceChar(c.groupId, '.', '/')
    ensures |JarUrl(c)| >= 4 && JarUrl(c)[|JarUrl(c)| - 4..] == ".jar"
    ensures PomUrl(c) == JarUrl(c)[..|JarUrl(c)| - 4] + ".pom"
  {
    var stem := ArtifactDir(c) + c.artifactId + "-" + c.version;
    assert JarUrl(c) == stem + ".jar";
    assert PomUrl(c) == stem + ".pom";
    assert JarUrl(c)[..|JarUrl(c)| - 4] == stem;
  }

  // ---------------------------------------------------------------------
  // Reading a POM

  /** The events the XML reader hands out: a start tag, an end tag, a text
      node after unescaping (None when unescaping failed), the end of the
      document, a read error, and everything else (comments, declarations). */
  datatype Event = Start(name: string) | End(name: string) | Text(unescaped: Option<string>)
                 | Eof | ReadError | Other

  /** The scanner's flags, the fields of the dependency element being read,
      the tag whose text is expected and the dependencies kept so far. */
  datatype PomScan = PomScan(inDependencies: bool, inDependency: bool, inDepMgmt: bool,
                             group: string, artifact: string, version: string, scope: string,
                             tag: string, deps: seq<Coordinate>)

  const StartScan: PomScan := PomScan(false, false, false, "", "", "", "", "", [])

  /** A finished dependency element is kept when its scope (empty meaning
      "compile") is "compile", its three coordinates are non-empty and its
      version is not a `${…}` property. */
  predicate Kept(group: string, artifact: string, version: string, scope: string)
  {
    (if scope == "" then "compile" else scope) == "compile"
      && group != "" && artifact != "" && version != "" && version[0] != '$'
  }

  /** One event of the scan. */
  function Step(st: PomScan, ev: Event): (r: PomScan)
    // text is captured only inside a dependency element
    ensures ev.Text? && !st.inDependency ==> r == st
    // a dependency is added only at the end tag of a dependency element
    ensures r.deps == st.deps ||
            (ev == End("dependency") && st.inDependency && Kept(st.group, st.artifact, st.version, st.scope) &&
             r.deps == st.deps + [Coordinate(st.group, st.artifact, st.version)])
    // inside dependencyManagement no dependency element is ever entered
    ensures st.inDepMgmt && !st.inDependency && ev != End("dependencyManagement") ==>
              r.inDepMgmt && !r.inDependency
  {
    match ev
    case Start(name) =>
      if name == "dependencyManagement" then st.(inDepMgmt := true)
      else if name == "dependencies" && !st.inDepMgmt then st.(inDependencies := true)
      else if name == "dependency" && st.inDependencies && !st.inDepMgmt then
        st.(inDependency := true, group := "", artifact := "", version := "", scope := "")
      else if st.inDependency then st.(tag := name)
      else st
    case End(name) =>
      if name == "dependencyManagement" then st.(inDepMgmt := false)
      else if name == "dependencies" && !st.inDepMgmt then st.(inDependencies := false)
      else if name == "dependency" && st.inDependency then
        st.(inDependency := false,
            deps := if Kept(st.group, st.artifact, st.version, st.scope)
                    then st.deps + [Coordinate(st.group, st.artifact, st.version)]
                    else st.deps)
      else st.(tag := "")
    case Text(unescaped) =>
      if !st.inDependency then st
      else
        var text := if unescaped.Some? then unescaped.value else "";
        if st.tag == "groupId" then st.(group := text)
        else if st.tag == "artifactId" then st.(artifact := text)
        else if st.tag == "version" then st.(version := text)
        else if st.tag == "scope" then st.(scope := text)
        else st
    case Eof => st
    case ReadError => st
    case Other => st
  }

  predicate Stops(ev: Event)
  {
    ev.Eof? || ev.ReadError?
  }

  /** The scan of an event stream: one step per event up to the end of the
      document or the first read error. */
  function Scan(st: PomScan, evs: seq<Event>): (r: PomScan)
    ensures st.deps <= r.deps
    decreases |evs|
  {
    if evs == [] || Stops(evs[0]) then st else Scan(Step(st, evs[0]), evs[1..])
  }

  /** The dependencies `parse_pom_dependencies` returns for a POM. */
  function PomDependencies(events: seq<Event>): seq<Coordinate>
  {
    Scan(StartScan, events).deps
  }

  /** No event of the stream ends the scan. */
  ghost predicate Flowing(evs: seq<Event>)
  {
    forall k :: 0 <= k < |evs| ==> !Stops(evs[k])
  }

  lemma FlowingAppend(a: seq<Event>, b: seq<Event>)
    requires Flowing(a) && Flowing(b)
    ensures Flowing(a + b)
  {
    forall k | 0 <= k < |a + b| ensures !Stops((a + b)[k]) {
      if k >= |a| { assert (a + b)[k] == b[k - |a|]; }
    }
  }

  /** Scanning a stream that does not stop in its first part is scanning
      the first part and then the second. */
  lemma {:induction false} ScanAppend(st: PomScan, a: seq<Event>, b: seq<Event>)
    requires Flowing(a)
    ensures Scan(st, a + b) == Scan(Scan(st, a), b)
    decreases |a|
  {
    if a != [] {
      assert (a + b)[0] == a[0] && (a + b)[1..] == a[1..] + b;
      ScanAppend(Step(st, a[0]), a[1..], b);
    } else {
      assert a + b == b;
    }
  }

  /** Every dependency a scan adds has non-empty coordinates and a version
      that is not a property reference, and the earlier ones stay in front. */
  lemma {:induction false} ScanKeepsOnlyComplete(st: PomScan, evs: seq<Event>)
    ensures st.deps <= Scan(st, evs).deps
    ensures forall k :: |st.deps| <= k < |Scan(st, evs).deps| ==>
              var d := Scan(st, evs).deps[k];
              d.groupId != "" && d.artifactId != "" && d.version != "" && d.version[0] != '$'
    decreases |evs|
  {
    if evs != [] && !Stops(evs[0]) {
      var next := Step(st, evs[0]);
      ScanKeepsOnlyComplete(next, evs[1..]);
    }
  }

  /** Inside a dependencyManagement section nothing is added until that
      section is closed. */
  lemma {:induction false} ManagedSectionSilent(st: PomScan, evs: seq<Event>)
    requires st.inDepMgmt && !st.inDependency
    requires forall k :: 0 <= k < |evs| ==> evs[k] != End("dependencyManagement")
    ensures Scan(st, evs).deps == st.deps
    decreases |evs|
  {
    if evs != [] && !Stops(evs[0]) {
      ManagedSectionSilent(Step(st, evs[0]), evs[1..]);
    }
  }

  // A dependency element as it appears in a POM, and the reading of a
  // dependencies section made of such elements.

  /** A declared dependency: its three coordinates and its scope element,
      if present. */
  datatype Declared = Declared(group: string, artifact: string, version: string, scope: Option<string>)

  /** `<tag>text</tag>`. */
  function Element(tag: string, text: string): seq<Event>
  {
    [Start(tag), Text(Some(text)), End(tag)]
  }

  /** The field elements of a dependency: groupId, artifactId, version and
      the scope element if there is one. */
  function FieldEvents(d: Declared): seq<Event>
  {
    Element("groupId", d.group) + (Element("artifactId", d.artifact) + (Element("version", d.version)
      + (if d.scope.Some? then Element("scope", d.scope.value) else [])))
  }

  /** The events of `<dependency>` with its field elements. */
  function DependencyEvents(d: Declared): seq<Event>
  {
    [Start("dependency")] + (FieldEvents(d) + [End("dependency")])
  }

  /** The events of a sequence of dependency elements. */
  function SectionEvents(ds: seq<Declared>): seq<Event>
  {
    if ds == [] then [] else SectionEvents(ds[..|ds| - 1]) + DependencyEvents(ds[|ds| - 1])
  }

  /** Whether a declared dependency is one the tool resolves: scope absent,
      empty or "compile", coordinates present, version not a property. */
  predicate Resolvable(d: Declared)
  {
    (d.scope.None? || d.scope.value == "" || d.scope.value == "compile")
      && d.group != "" && d.artifact != "" && d.version != "" && d.version[0] != '$'
  }

  /** The resolvable declarations, as coordinates, in document order. */
  function ResolvableCoordinates(ds: seq<Declared>): seq<Coordinate>
  {
    if ds == [] then []
    else
      var d := ds[|ds| - 1];
      ResolvableCoordinates(ds[..|ds| - 1]) + (if Resolvable(d) then [Coordinate(d.group, d.artifact, d.version)] else [])
  }

  /** Reading a field element inside a dependency element sets that field. */
  lemma ReadField(st: PomScan, tag: string, text: string)
    requires st.inDependency && !st.inDepMgmt
    requires tag == "groupId" || tag == "artifactId" || tag == "version" || tag == "scope"
    ensures var r := Scan(st, Element(tag, text));
            r.inDependencies == st.inDependencies && r.inDependency && !r.inDepMgmt && r.deps == st.deps &&
            r.group == (if tag == "groupId" then text else st.group) &&
            r.artifact == (if tag == "artifactId" then text else st.artifact) &&
            r.version == (if tag == "version" then text else st.version) &&
            r.scope == (if tag == "scope" then text else st.scope)
  {
    var e := Element(tag, text);
    var s1 := Step(st, Start(tag));
    assert s1 == st.(tag := tag);
    var s2 := Step(s1, Text(Some(text)));
    var s3 := Step(s2, End(tag));
    assert s3 == s2.(tag := "");
    assert e[1..] == [Text(Some(text)), End(tag)] && e[1..][1..] == [End(tag)] && e[1..][1..][1..] == [];
    assert Scan(st, e) == Scan(s1, e[1..]);
    assert Scan(s1, e[1..]) == Scan(s2, e[1..][1..]);
    assert Scan(s2, e[1..][1..]) == s3;
  }

  /** The field elements of a dependency set its fields and nothing else
      the scan depends on. */
  lemma ReadFields(s0: PomScan, d: Declared)
    requires s0.inDependency && !s0.inDepMgmt
    ensures Flowing(FieldEvents(d))
    ensures var r := Scan(s0, FieldEvents(d));
            r.inDependencies == s0.inDependencies && r.inDependency && !r.inDepMgmt && r.deps == s0.deps &&
            r.group == d.group && r.artifact == d.artifact && r.version == d.version &&
            r.scope == (if d.scope.Some? then d.scope.value else s0.scope)
  {
    var e1 := Element("groupId", d.group);
    var e2 := Element("artifactId", d.artifact);
    var e3 := Element("version", d.version);
    var sc := if d.scope.Some? then Element("scope", d.scope.value) else [];
    assert Flowing(e1) && Flowing(e2) && Flowing(e3) && Flowing(sc);
    FlowingAppend(e3, sc);
    FlowingAppend(e2, e3 + sc);
    FlowingAppend(e1, e2 + (e3 + sc));
    ScanAppend(s0, e1, e2 + (e3 + sc));
    ReadField(s0, "groupId", d.group);
    var s1 := Scan(s0, e1);
    ScanAppend(s1, e2, e3 + sc);
    ReadField(s1, "artifactId", d.artifact);
    var s2 := Scan(s1, e2);
    ScanAppend(s2, e3, sc);
    ReadField(s2, "version", d.version);
    var s3 := Scan(s2, e3);
    if d.scope.Some? {
      ReadField(s3, "scope", d.scope.value);
    }
  }

  /** One dependency element inside a dependencies section adds its
      coordinate exactly when it is resolvable. */
  lemma ReadDependency(st: PomScan, d: Declared)
    requires st.inDependencies && !st.inDepMgmt
    ensures Flowing(DependencyEvents(d))
    ensures var r := Scan(st, DependencyEvents(d));
            r.inDependencies && !r.inDependency && !r.inDepMgmt &&
            r.deps == st.deps + (if Resolvable(d) then [Coordinate(d.group, d.artifact, d.version)] else [])
  {
    var s0 := Step(st, Start("dependency"));
    assert s0 == st.(inDependency := true, group := "", artifact := "", version := "", scope := "");
    var evs := DependencyEvents(d);
    assert evs[0] == Start("dependency") && evs[1..] == FieldEvents(d) + [End("dependency")];
    assert Scan(st, evs) == Scan(s0, evs[1..]);
    ReadFields(s0, d);
    FlowingAppend(FieldEvents(d), [End("dependency")]);
    FlowingAppend([Start("dependency")], FieldEvents(d) + [End("dependency")]);
    ScanAppend(s0, FieldEvents(d), [End("dependency")]);
    var s4 := Scan(s0, FieldEvents(d));
    assert Kept(s4.group, s4.artifact, s4.version, s4.scope) == Resolvable(d);
    assert Scan(s4, [End("dependency")]) == Step(s4, End("dependency"));
  }

  /** A dependencies section made of dependency elements yields the
      resolvable ones, in document order. */
  lemma {:induction false} ReadSection(st: PomScan, ds: seq<Declared>)
    requires st.inDependencies && !st.inDependency && !st.inDepMgmt
    ensures var r := Scan(st, SectionEvents(ds));
            r.inDependencies && !r.inDependency && !r.inDepMgmt &&
            r.deps == st.deps + ResolvableCoordinates(ds)
  {
    if ds != [] {
      var init := ds[..|ds| - 1];
      var d := ds[|ds| - 1];
      ReadSection(st, init);
      SectionNoStops(init);
      ScanAppend(st, SectionEvents(init), DependencyEvents(d));
      ReadDependency(Scan(st, SectionEvents(init)), d);
    }
  }

  lemma {:induction false} SectionNoStops(ds: seq<Declared>)
    ensures Flowing(SectionEvents(ds))
  {
    if ds != [] {
      SectionNoStops(ds[..|ds| - 1]);
      ReadDependency(StartScan.(inDependencies := true), ds[|ds| - 1]);
      FlowingAppend(SectionEvents(ds[..|ds| - 1]), DependencyEvents(ds[|ds| - 1]));
    }
  }

  lemma OpenSection()
    ensures Flowing([Start("project"), Start("dependencies")])
    ensures Scan(StartScan, [Start("project"), Start("dependencies")]) == StartScan.(inDependencies := true)
  {
    var head := [Start("project"), Start("dependencies")];
    assert head[1..] == [Start("dependencies")] && head[1..][1..] == [];
    assert Step(StartScan, Start("project")) == StartScan;
  }

  lemma CloseSection(st: PomScan)
    requires !st.inDepMgmt
    ensures Scan(st, [End("dependencies"), End("project"), Eof]).deps == st.deps
  {
    var tail := [End("dependencies"), End("project"), Eof];
    var s2 := Step(st, End("dependencies"));
    var s3 := Step(s2, End("project"));
    assert s2.deps == st.deps && s3.deps == st.deps;
    assert tail[1..] == [End("project"), Eof] && tail[1..][1..] == [Eof];
    assert Scan(st, tail) == Scan(s2, tail[1..]) == Scan(s3, tail[1..][1..]) == s3;
  }

  /** A POM whose project holds one dependencies section yields exactly the
      resolvable declarations of that section, in document order. */
  lemma ReadPom(ds: seq<Declared>)
    ensures PomDependencies([Start("project"), Start("dependencies")]
                            + (SectionEvents(ds) + [End("dependencies"), End("project"), Eof]))
            == ResolvableCoordinates(ds)
  {
    var head := [Start("project"), Start("dependencies")];
    var tail := [End("dependencies"), End("project"), Eof];
    OpenSection();
    var s0 := StartScan.(inDependencies := true);
    SectionNoStops(ds);
    ScanAppend(StartScan, head, SectionEvents(ds) + tail);
    ScanAppend(s0, SectionEvents(ds), tail);
    ReadSection(s0, ds);
    CloseSection(Scan(s0, SectionEvents(ds)));
  }

  /** `parse_pom_dependencies`: the event loop over the flags and the
      fields of the current dependency. */
  method ParsePomDependencies(events: seq<Event>) returns (deps: seq<Coordinate>)
    ensures deps == PomDependencies(events)
  {
    deps := [];
    var inDependencies, inDependency, inDepMgmt := false, false, false;
    var group, artifact, version, scope, tag := "", "", "", "", "";
    var i := 0;
    while i < |events|
      invariant i <= |events|
      invariant Scan(PomScan(inDependencies, inDependency, inDepMgmt, group, artifact, version, scope, tag, deps),
                     events[i..]) == Scan(StartScan, events)
    {
      ghost var before := PomScan(inDependencies, inDependency, inDepMgmt, group, artifact, version, scope, tag, deps);
      var ev := events[i];
      if ev.Eof? || ev.ReadError? {
        assert Stops(events[i..][0]);
        break;
      }
      if ev.Start? {
        var name := ev.name;
        if name == "dependencyManagement" {
          inDepMgmt := true;
        } else if name == "dependencies" && !inDepMgmt {
          inDependencies := true;
        } else if name == "dependency" && inDependencies && !inDepMgmt {
          inDependency := true;
          group, artifact, version, scope := "", "", "", "";
        } else if inDependency {
          tag := name;
        }
      } else if ev.End? {
        var name := ev.name;
        if name == "dependencyManagement" {
          inDepMgmt := false;
        } else if name == "dependencies" && !inDepMgmt {
          inDependencies := false;
        } else if name == "dependency" && inDependency {
          inDependency := false;
          var effective := if scope == "" then "compile" else scope;
          if effective == "compile" && group != "" && artifact != "" && version != "" && version[0] != '$' {
            deps := deps + [Coordinate(group, artifact, version)];
          }
        } else {
          tag := "";
        }
      } else if ev.Text? {
        if inDependency {
          var text := if ev.unescaped.Some? then ev.unescaped.value else "";
          if tag == "groupId" {
            group := text;
          } else if tag == "artifactId" {
            artifact := text;
          } else if tag == "version" {
            version := text;
          } else if tag == "scope" {
            scope := text;
          }
        }
      }
      assert PomScan(inDependencies, inDependency, inDepMgmt, group, artifact, version, scope, tag, deps)
          == Step(before, ev);
      assert events[i..][1..] == events[i + 1..];
      i := i + 1;
    }
    assert i == |events| ==> events[i..] == [];
  }

  // ---------------------------------------------------------------------
  // The resolver

  /** What asking Maven Central for a jar came back with: a request that
      could not be sent, or a status (with its display text, such as
      "404 Not Found") and the outcome of reading the body. */
  datatype JarFetch = JarSendFailed(message: string)
                    | JarAnswered(status: nat, statusText: string, body: IoOutcome)

  /** What asking for a POM came back with; a body that could be read
      arrives as the XML reader's event stream. */
  datatype PomBody = PomEvents(events: seq<Event>) | PomUnreadable(message: string)
  datatype PomFetch = PomSendFailed(message: string) | PomAnswered(status: nat, body: PomBody)

  /** The outside world of the resolver: Maven Central's answer for every
      jar and POM address, and the outcome of writing a jar to every path. */
  datatype Central = Central(jar: string -> JarFetch, pom: string -> PomFetch, write: string -> IoOutcome)

  /** The resolver's visited-set key: the target directory, ':' and the
      displayed coordinate. */
  function ResolveKey(targetDir: string, c: Coordinate): (key: string)
    ensures InDir(key, targetDir)
  {
    assert (targetDir + ":" + Display(c))[..|targetDir| + 1] == targetDir + ":";
    targetDir + ":" + Display(c)
  }

  /** A key that belongs to `targetDir`. */
  predicate InDir(key: string, targetDir: string)
  {
    |key| > |targetDir| && key[..|targetDir| + 1] == targetDir + ":"
  }

  function JarPath(targetDir: string, c: Coordinate): string
  {
    JoinPath(targetDir, JarFilename(c))
  }

  function DepsDir(projectDir: string): string
  {
    JoinPath(JoinPath(projectDir, ".forge"), "deps")
  }

  function TestDepsDir(projectDir: string): string
  {
    JoinPath(JoinPath(projectDir, ".forge"), "test-deps")
  }

  /** Keys resolved into the dependency directory never coincide with keys
      resolved into the test-dependency directory, so a coordinate needed
      by both is resolved into each. */
  lemma SeparateKeySpaces(projectDir: string, k1: string, k2: string)
    requires InDir(k1, DepsDir(projectDir)) && InDir(k2, TestDepsDir(projectDir))
    ensures k1 != k2
  {
    var n := |JoinPath(projectDir, ".forge")| + 1;
    assert k1[n] == k1[..|DepsDir(projectDir)| + 1][n] == DepsDir(projectDir)[n] == 'd';
    assert k2[n] == k2[..|TestDepsDir(projectDir)| + 1][n] == TestDepsDir(projectDir)[n] == 't';
  }

  /** The declared dependency `key` = `version` parses, and its coordinate
      is among the keys resolved into `targetDir`. */
  predicate ResolvedIn(resolved: set<string>, targetDir: string, key: string, version: string)
  {
    ParseCoordinate(key, version).Ok? && ResolveKey(targetDir, ParseCoordinate(key, version).value) in resolved
  }

  lemma ResolvedInGrows(a: set<string>, b: set<string>, targetDir: string, key: string, version: string)
    requires ResolvedIn(a, targetDir, key, version) && a <= b
    ensures ResolvedIn(b, targetDir, key, version)
  {
  }

  /** The first `n` listed keys are declared and resolved. */
  ghost predicate ResolvedUpTo(resolved: set<string>, targetDir: string, keys: seq<string>, n: nat,
                               dependencies: map<string, string>)
    requires n <= |keys|
  {
    forall j :: 0 <= j < n ==> keys[j] in dependencies && ResolvedIn(resolved, targetDir, keys[j], dependencies[keys[j]])
  }

  /** Resolved keys stay resolved as the set grows, and one more resolved
      key extends the prefix. */
  lemma ResolvedUpToNext(a: set<string>, b: set<string>, targetDir: string, keys: seq<string>, n: nat,
                         dependencies: map<string, string>)
    requires n < |keys| && ResolvedUpTo(a, targetDir, keys, n, dependencies) && a <= b
    requires keys[n] in dependencies && ResolvedIn(b, targetDir, keys[n], dependencies[keys[n]])
    ensures ResolvedUpTo(b, targetDir, keys, n + 1, dependencies)
  {
    forall j | 0 <= j < n
      ensures keys[j] in dependencies && ResolvedIn(b, targetDir, keys[j], dependencies[keys[j]])
    {
      ResolvedInGrows(a, b, targetDir, keys[j], dependencies[keys[j]]);
    }
  }

  /** `fetch_transitive_deps`: the dependencies in the coordinate's POM; a
      missing POM (a status outside 2xx) means none. */
  method FetchTransitiveDeps(coord: Coordinate, central: Central) returns (r: Result<seq<Coordinate>>)
    ensures central.pom(PomUrl(coord)).PomSendFailed? ==>
              r == Err(DownloadError(PomUrl(coord), central.pom(PomUrl(coord)).message))
    ensures central.pom(PomUrl(coord)).PomAnswered? ==>
              var answer := central.pom(PomUrl(coord));
              if !IsSuccess(answer.status) then r == Ok([])
              else if answer.body.PomUnreadable? then r == Err(DownloadError(PomUrl(coord), answer.body.message))
              else r == Ok(PomDependencies(answer.body.events))
  {
    var url := PomUrl(coord);
    var response := central.pom(url);
    if response.PomSendFailed? {
      return Err(DownloadError(url, response.message));
    }
    if !IsSuccess(response.status) {
      return Ok([]);
    }
    if response.body.PomUnreadable? {
      return Err(DownloadError(url, response.body.message));
    }
    var deps := ParsePomDependencies(response.body.events);
    return Ok(deps);
  }

  /** `MavenResolver`: the directory the jars go to and the keys of the
      coordinates resolved so far. The disk's jar files are threaded
      through the operations as a set of paths. */
  class MavenResolver {
    const cacheDir: string
    var resolved: set<string>

    /** `MavenResolver::new`: jars go to `.forge/deps` of the project. */
    constructor (projectDir: string)
      ensures cacheDir == DepsDir(projectDir) && resolved == {}
    {
      cacheDir := DepsDir(projectDir);
      resolved := {};
    }

    /** `test_cache_dir`: `test-deps` beside the jar directory. */
    function TestCacheDir(): string
    {
      JoinPath(Parent(cacheDir), "test-deps")
    }

    /** For a resolver made by the constructor, test dependencies go to
        `.forge/test-deps` of the same project. */
    lemma TestCacheDirOf(projectDir: string)
      requires cacheDir == DepsDir(projectDir)
      ensures TestCacheDir() == TestDepsDir(projectDir)
    {
      var forge := JoinPath(projectDir, ".forge");
      assert forge == projectDir + Separator(projectDir) + ".forge";
      assert forge[|forge| - 1] == 'e';
      ParentOfJoin(forge, "deps");
    }

    /** `download_dependency`: an already resolved key, or a jar already on
        disk, needs no download; otherwise the jar is fetched and written.
        The key is recorded only once the jar is on disk. */
    method DownloadDependency(coord: Coordinate, targetDir: string, files: set<string>, central: Central)
      returns (r: Result<string>, files': set<string>)
      modifies this
      ensures ResolveKey(targetDir, coord) in old(resolved) ==>
                r == Ok(JarPath(targetDir, coord)) && files' == files && resolved == old(resolved)
      ensures ResolveKey(targetDir, coord) !in old(resolved) && JarPath(targetDir, coord) in files ==>
                r == Ok(JarPath(targetDir, coord)) && files' == files &&
                resolved == old(resolved) + {ResolveKey(targetDir, coord)}
      ensures ResolveKey(targetDir, coord) !in old(resolved) && JarPath(targetDir, coord) !in files ==>
                var url := JarUrl(coord);
                var answer := central.jar(url);
                var jar := JarPath(targetDir, coord);
                if answer.JarSendFailed? then r == Err(DownloadError(url, answer.message))
                else if !IsSuccess(answer.status) then r == Err(DownloadError(url, "HTTP " + answer.statusText))
                else if answer.body.Failed? then r == Err(DownloadError(url, answer.body.message))
                else if central.write(jar).Failed? then r == Err(IoError(jar, central.write(jar).message))
                else r == Ok(jar) && files' == files + {jar} && resolved == old(resolved) + {ResolveKey(targetDir, coord)}
      ensures r.Err? ==> files' == files && resolved == old(resolved)
      ensures r.Ok? ==> r.value == JarPath(targetDir, coord) &&
                        resolved == old(resolved) + {ResolveKey(targetDir, coord)} &&
                        (ResolveKey(targetDir, coord) !in old(resolved) ==> r.value in files')
    {
      var key := ResolveKey(targetDir, coord);
      var jar := JarPath(targetDir, coord);
      files' := files;
      if key in resolved {
        return Ok(jar), files';
      }
      if jar in files {
        resolved := resolved + {key};
        return Ok(jar), files';
      }
      var url := JarUrl(coord);
      var answer := central.jar(url);
      if answer.JarSendFailed? {
        return Err(DownloadError(url, answer.message)), files';
      }
      if !IsSuccess(answer.status) {
        return Err(DownloadError(url, "HTTP " + answer.statusText)), files';
      }
      if answer.body.Failed? {
        return Err(DownloadError(url, answer.body.message)), files';
      }
      var written := central.write(jar);
      if written.Failed? {
        return Err(IoError(jar, written.message)), files';
      }
      files' := files + {jar};
      resolved := resolved + {key};
      r := Ok(jar);
    }
  
    /** `resolve_recursive`: nothing happens beyond depth 5 or for a key
        already resolved; otherwise the jar is downloaded and listed, then
        the dependencies of its POM are resolved one level deeper. A POM
        that cannot be fetched is skipped; any other error stops the walk. */
    method ResolveRecursive(coord: Coordinate, targetDir: string, downloaded: seq<string>, files: set<string>,
                            depth: nat, central: Central)
      returns (r: Result<()>, downloaded': seq<string>, files': set<string>)
      modifies this
      ensures depth > 5 ==>
                r == Ok(()) && downloaded' == downloaded && files' == files && resolved == old(resolved)
      ensures depth <= 5 && ResolveKey(targetDir, coord) in old(resolved) ==>
                r == Ok(()) && downloaded' == downloaded && files' == files && resolved == old(resolved)
      ensures old(resolved) <= resolved && files <= files' && downloaded <= downloaded'
      ensures forall k :: k in resolved - old(resolved) ==> InDir(k, targetDir)
      ensures forall i :: |downloaded| <= i < |downloaded'| ==> downloaded'[i] in files'
      ensures r.Ok? && depth <= 5 ==> ResolveKey(targetDir, coord) in resolved
      ensures r.Ok? && depth <= 5 && ResolveKey(targetDir, coord) !in old(resolved) ==>
                |downloaded'| > |downloaded| && downloaded'[|downloaded|] == JarPath(targetDir, coord)
      decreases 6 - depth
    {
      downloaded', files' := downloaded, files;
      if depth > 5 {
        return Ok(()), downloaded', files';
      }
      var key := ResolveKey(targetDir, coord);
      if key in resolved {
        return Ok(()), downloaded', files';
      }
      var jar;
      jar, files' := DownloadDependency(coord, targetDir, files', central);
      if jar.Err? {
        return Err(jar.error), downloaded', files';
      }
      downloaded' := downloaded' + [jar.value];
      var transitive := FetchTransitiveDeps(coord, central);
      if transitive.Ok? {
        var deps := transitive.value;
        var i := 0;
        while i < |deps|
          invariant i <= |deps|
          invariant old(resolved) <= resolved && files <= files' && downloaded <= downloaded'
          invariant forall k :: k in resolved - old(resolved) ==> InDir(k, targetDir)
          invariant forall j :: |downloaded| <= j < |downloaded'| ==> downloaded'[j] in files'
          invariant key in resolved
          invariant |downloaded'| > |downloaded| && downloaded'[|downloaded|] == JarPath(targetDir, coord)
        {
          var sub;
          sub, downloaded', files' := ResolveRecursive(deps[i], targetDir, downloaded', files', depth + 1, central);
          if sub.Err? {
            return Err(sub.error), downloaded', files';
          }
          i := i + 1;
        }
      }
      r := Ok(());
    }
  
    /** One declared dependency of `resolve_internal`: its key parsed, then
        resolved from depth 0. */
    method ResolveDeclared(key: string, version: string, targetDir: string, downloaded: seq<string>,
                           files: set<string>, central: Central)
      returns (r: Result<()>, downloaded': seq<string>, files': set<string>)
      modifies this
      ensures ParseCoordinate(key, version).Err? ==>
                r == Err(ParseCoordinate(key, version).error) && resolved == old(resolved) &&
                downloaded' == downloaded && files' == files
      ensures old(resolved) <= resolved && files <= files' && downloaded <= downloaded'
      ensures forall k :: k in resolved - old(resolved) ==> InDir(k, targetDir)
      ensures forall j :: |downloaded| <= j < |downloaded'| ==> downloaded'[j] in files'
      ensures r.Ok? ==> ResolvedIn(resolved, targetDir, key, version)
    {
      var coord := ParseCoordinate(key, version);
      if coord.Err? {
        return Err(coord.error), downloaded, files;
      }
      r, downloaded', files' := ResolveRecursive(coord.value, targetDir, downloaded, files, 0, central);
    }

    /** `resolve_internal`: create the target directory, then resolve every
        declared dependency from depth 0, in the map's iteration order; the
        first malformed key or failed download ends the resolution. */
    method ResolveInternal(dependencies: map<string, string>, targetDir: string, mkdir: IoOutcome,
                           files: set<string>, central: Central)
      returns (r: Result<seq<string>>, files': set<string>)
      modifies this
      ensures mkdir.Failed? ==>
                r == Err(IoError(targetDir, mkdir.message)) && files' == files && resolved == old(resolved)
      ensures old(resolved) <= resolved && files <= files'
      ensures forall k :: k in resolved - old(resolved) ==> InDir(k, targetDir)
      ensures r.Ok? ==> forall p :: p in r.value ==> p in files'
      ensures r.Ok? ==> forall key :: key in dependencies ==> ResolvedIn(resolved, targetDir, key, dependencies[key])
    {
      files' := files;
      if mkdir.Failed? {
        return Err(IoError(targetDir, mkdir.message)), files';
      }
      var downloaded := [];
      var keys := EnumerateKeys(dependencies.Keys);
      var i := 0;
      while i < |keys|
        invariant i <= |keys|
        invariant old(resolved) <= resolved && files <= files'
        invariant forall k :: k in resolved - old(resolved) ==> InDir(k, targetDir)
        invariant forall j :: 0 <= j < |downloaded| ==> downloaded[j] in files'
        invariant ResolvedUpTo(resolved, targetDir, keys, i, dependencies)
      {
        ghost var before := resolved;
        var key := keys[i];
        assert key in Elems(keys);
        var done;
        done, downloaded, files' := ResolveDeclared(key, dependencies[key], targetDir, downloaded, files', central);
        if done.Err? {
          return Err(done.error), files';
        }
        ResolvedUpToNext(before, resolved, targetDir, keys, i, dependencies);
        i := i + 1;
      }
      forall key | key in dependencies ensures ResolvedIn(resolved, targetDir, key, dependencies[key]) {
        assert key in Elems(keys);
        var j :| 0 <= j < |keys| && keys[j] == key;
      }
      r := Ok(downloaded);
    }

    /** `resolve_all`: resolution into the jar directory. */
    method ResolveAll(dependencies: map<string, string>, mkdir: IoOutcome, files: set<string>, central: Central)
      returns (r: Result<seq<string>>, files': set<string>)
      modifies this
      ensures forall k :: k in resolved - old(resolved) ==> InDir(k, cacheDir)
      ensures r.Ok? ==> forall key :: key in dependencies ==> ResolvedIn(resolved, cacheDir, key, dependencies[key])
    {
      r, files' := ResolveInternal(dependencies, cacheDir, mkdir, files, central);
    }

    /** `resolve_test_deps`: resolution into the test-dependency directory. */
    method ResolveTestDeps(dependencies: map<string, string>, mkdir: IoOutcome, files: set<string>, central: Central)
      returns (r: Result<seq<string>>, files': set<string>)
      modifies this
      ensures forall k :: k in resolved - old(resolved) ==> InDir(k, TestCacheDir())
      ensures r.Ok? ==> forall key :: key in dependencies ==> ResolvedIn(resolved, TestCacheDir(), key, dependencies[key])
    {
      r, files' := ResolveInternal(dependencies, TestCacheDir(), mkdir, files, central);
    }
  }
}
