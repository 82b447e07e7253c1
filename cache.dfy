// The incremental build cache: a map from a source file's path, relative
// to the source directory, to the digest of its content, stored between
// runs in .forge/cache.json.
//
// The digest function and the directory walk are inputs: a walk is the
// list of entries it produces, in the order it produces them, and SHA-256
// is a function parameter nothing is assumed about.

module Cache {
  import opened Errors
  import opened Collections
  import opened Strings
  import opened Paths
  import Langs

  /** What reading one walked file gives. */
  datatype Content = Bytes(data: seq<bv8>) | ReadFailure(message: string)

  /** One entry of the recursive walk of the source directory: an entry the
      walk itself failed on, a directory, or a file with its path relative to
      the walked directory. */
  datatype WalkEntry =
    | WalkFailure
    | Directory(rel: string)
    | File(rel: string, content: Content)

  /** The source directory as the walk sees it. */
  datatype SourceTree = Missing | Present(entries: seq<WalkEntry>)

  /** A file is hashed when no extension filter is given or its extension
      is one of the filter's. */
  predicate Tracked(path: string, extensions: seq<string>)
  {
    extensions == [] || ExtensionOrEmpty(path) in extensions
  }

  // ---------------------------------------------------------------------
  // Specification of the hashing of a source tree

  /** The effect of one walk entry on the map built so far. */
  function HashStep(sourceDir: string, m: map<string, string>, e: WalkEntry,
                    extensions: seq<string>, digest: seq<bv8> -> string): Result<map<string, string>>
  {
    match e
    case WalkFailure => Ok(m)
    case Directory(_) => Ok(m)
    case File(rel, content) =>
      if !Tracked(rel, extensions) then Ok(m)
      else match content
        case ReadFailure(message) => Err(IoError(JoinPath(sourceDir, rel), message))
        case Bytes(data) => Ok(m[rel := digest(data)])
  }

  /** The entries folded in walk order; the first read failure ends it. */
  function HashEntries(sourceDir: string, es: seq<WalkEntry>, extensions: seq<string>,
                       digest: seq<bv8> -> string): Result<map<string, string>>
  {
    if es == [] then Ok(map[])
    else
      var prev := HashEntries(sourceDir, es[..|es| - 1], extensions, digest);
      if prev.Err? then prev
      else HashStep(sourceDir, prev.value, es[|es| - 1], extensions, digest)
  }

  /** What the hashing of a source directory yields. */
  function Hashes(sourceDir: string, tree: SourceTree, extensions: seq<string>,
                  digest: seq<bv8> -> string): Result<map<string, string>>
  {
    match tree
    case Missing => Ok(map[])
    case Present(es) => HashEntries(sourceDir, es, extensions, digest)
  }

  /** The relative paths of the files the filter keeps. */
  ghost function TrackedFiles(es: seq<WalkEntry>, extensions: seq<string>): set<string>
  {
    set e | e in es && e.File? && Tracked(e.rel, extensions) :: e.rel
  }

  /** A tracked file the walk found but could not read. */
  ghost predicate HasUnreadable(es: seq<WalkEntry>, extensions: seq<string>)
  {
    exists e :: e in es && e.File? && Tracked(e.rel, extensions) && e.content.ReadFailure?
  }

  /** Hashing fails exactly when a tracked file cannot be read; otherwise its
      keys are the tracked files, each mapped to the digest of a content the
      walk read for that path. */
  lemma {:induction false} HashEntriesMeaning(sourceDir: string, es: seq<WalkEntry>, extensions: seq<string>,
                                              digest: seq<bv8> -> string)
    ensures HashEntries(sourceDir, es, extensions, digest).Err? <==> HasUnreadable(es, extensions)
    ensures HashEntries(sourceDir, es, extensions, digest).Ok? ==>
              var m := HashEntries(sourceDir, es, extensions, digest).value;
              m.Keys == TrackedFiles(es, extensions) &&
              forall k :: k in m ==> exists d :: File(k, Bytes(d)) in es && m[k] == digest(d)
  {
    if es != [] {
      var init := es[..|es| - 1];
      var e := es[|es| - 1];
      assert es == init + [e];
      HashEntriesMeaning(sourceDir, init, extensions, digest);
      TrackedFilesSnoc(init, e, extensions);
      HasUnreadableSnoc(init, e, extensions);
      if !HasUnreadable(init, extensions) {
        HashLastEntry(sourceDir, init, e, extensions, digest);
      }
    }
  }

  lemma TrackedFilesSnoc(init: seq<WalkEntry>, e: WalkEntry, extensions: seq<string>)
    ensures TrackedFiles(init + [e], extensions) ==
            TrackedFiles(init, extensions) + (if e.File? && Tracked(e.rel, extensions) then {e.rel} else {})
  {
  }

  lemma HasUnreadableSnoc(init: seq<WalkEntry>, e: WalkEntry, extensions: seq<string>)
    ensures HasUnreadable(init + [e], extensions) <==>
            HasUnreadable(init, extensions) || (e.File? && Tracked(e.rel, extensions) && e.content.ReadFailure?)
  {
    if HasUnreadable(init, extensions) {
      var u :| u in init && u.File? && Tracked(u.rel, extensions) && u.content.ReadFailure?;
      assert u in init + [e];
    }
    if e.File? && Tracked(e.rel, extensions) && e.content.ReadFailure? {
      assert e in init + [e];
    }
  }

  /** The last entry of a walk whose earlier entries all read fine. */
  lemma HashLastEntry(sourceDir: string, init: seq<WalkEntry>, e: WalkEntry, extensions: seq<string>,
                      digest: seq<bv8> -> string)
    requires HashEntries(sourceDir, init, extensions, digest).Ok?
    requires forall k :: k in HashEntries(sourceDir, init, extensions, digest).value ==>
               exists d :: File(k, Bytes(d)) in init && HashEntries(sourceDir, init, extensions, digest).value[k] == digest(d)
    ensures var es := init + [e];
            HashEntries(sourceDir, es, extensions, digest).Ok? ==>
              var m := HashEntries(sourceDir, es, extensions, digest).value;
              forall k :: k in m ==> exists d :: File(k, Bytes(d)) in es && m[k] == digest(d)
  {
    var es := init + [e];
    assert es[..|es| - 1] == init;
    var prev := HashEntries(sourceDir, init, extensions, digest).value;
    if HashEntries(sourceDir, es, extensions, digest).Ok? {
      var m := HashEntries(sourceDir, es, extensions, digest).value;
      forall k | k in m ensures exists d :: File(k, Bytes(d)) in es && m[k] == digest(d) {
        if e.File? && e.rel == k && Tracked(e.rel, extensions) && e.content.Bytes? {
          assert File(k, Bytes(e.content.data)) == es[|es| - 1];
        } else {
          var d :| File(k, Bytes(d)) in init && prev[k] == digest(d);
          assert File(k, Bytes(d)) in es;
        }
      }
    }
  }

  /** Once a prefix of the walk fails, the whole walk fails the same way. */
  lemma {:induction false} HashEntriesErrStays(sourceDir: string, es: seq<WalkEntry>, i: nat,
                                               extensions: seq<string>, digest: seq<bv8> -> string)
    requires i <= |es| && HashEntries(sourceDir, es[..i], extensions, digest).Err?
    ensures HashEntries(sourceDir, es, extensions, digest) == HashEntries(sourceDir, es[..i], extensions, digest)
    decreases |es|
  {
    if i < |es| {
      var init := es[..|es| - 1];
      assert init[..i] == es[..i];
      HashEntriesErrStays(sourceDir, init, i, extensions, digest);
    } else {
      assert es[..i] == es;
    }
  }

  /** Extending the folded prefix by one entry. */
  lemma HashEntriesNext(sourceDir: string, es: seq<WalkEntry>, i: nat,
                        extensions: seq<string>, digest: seq<bv8> -> string)
    requires i < |es|
    ensures var prev := HashEntries(sourceDir, es[..i], extensions, digest);
            HashEntries(sourceDir, es[..i + 1], extensions, digest) ==
              if prev.Err? then prev else HashStep(sourceDir, prev.value, es[i], extensions, digest)
  {
    assert es[..i + 1][..i] == es[..i];
  }

  /** With no extension filter every file is hashed. For a language the
      extension table does not know, that is every file of the tree. */
  lemma UnknownLanguageTracksAll(lang: string, path: string)
    requires lang !in {"java", "kotlin", "python"}
    ensures Tracked(path, Langs.ExtensionsForLang(lang))
  {
  }

  /** Every extension in the table is one `Path::extension` can yield: any
      source file of the language, named stem.ext in any directory, is
      tracked. */
  lemma ListedExtensionsTracked(lang: string, dir: string, stem: string, e: string)
    requires e in Langs.ExtensionsForLang(lang)
    requires stem != [] && '.' !in stem && '/' !in stem
    ensures Tracked(JoinPath(dir, stem + "." + e), Langs.ExtensionsForLang(lang))
  {
    ExtensionAfterDot(dir, stem, e);
  }

  // ---------------------------------------------------------------------
  // Change detection and the master hash, on values

  /** The current paths whose stored hash is absent or different. */
  ghost function ChangedSet(current: map<string, string>, stored: map<string, string>): set<string>
  {
    set p | p in current && (p !in stored || stored[p] != current[p])
  }

  /** The two maps differ exactly when a current file is new or modified, or
      a stored file is gone: the three cases the change check looks at. */
  lemma ChangesAreThreeWay(current: map<string, string>, stored: map<string, string>)
    ensures current != stored <==>
              ChangedSet(current, stored) != {} || exists p :: p in stored && p !in current
  {
    if ChangedSet(current, stored) == {} && forall p :: p in stored ==> p in current {
      forall p | p in current ensures p in stored && stored[p] == current[p] {
        assert p !in ChangedSet(current, stored);
      }
      assert current.Keys == stored.Keys;
    }
  }

  /** The text fed to the hasher: each key followed by its hash, over the
      given key order; keys missing from the map are skipped. */
  function MasterText(keys: seq<string>, m: map<string, string>): string
  {
    if keys == [] then ""
    else
      var last := keys[|keys| - 1];
      if last in m then MasterText(keys[..|keys| - 1], m) + last + m[last]
      else MasterText(keys[..|keys| - 1], m)
  }

  /** The two loops of `has_changes`: a path of `current` missing from
      `stored` or stored with another hash, or a stored path missing from
      `current`, is a change. */
  method MapsDiffer(current: map<string, string>, stored: map<string, string>) returns (b: bool)
    ensures b <==> current != stored
  {
    var paths := EnumerateKeys(current.Keys);
    for i := 0 to |paths|
      invariant forall k :: 0 <= k < i ==> paths[k] in stored && stored[paths[k]] == current[paths[k]]
    {
      var path := paths[i];
      if !(path in stored && stored[path] == current[path]) {
        return true;
      }
    }
    var storedPaths := EnumerateKeys(stored.Keys);
    for i := 0 to |storedPaths|
      invariant forall k :: 0 <= k < i ==> storedPaths[k] in current
    {
      if storedPaths[i] !in current {
        return true;
      }
    }
    forall p | p in current ensures p in stored && stored[p] == current[p] {
      assert p in Elems(paths);
    }
    forall p | p in stored ensures p in current {
      assert p in Elems(storedPaths);
    }
    assert current.Keys == stored.Keys;
    return false;
  }

  /** The loop of `compute_master_hash`: each listed path present in the
      map, followed by its hash, appended in list order. */
  method ConcatEntries(keys: seq<string>, m: map<string, string>) returns (text: string)
    ensures text == MasterText(keys, m)
  {
    text := "";
    for i := 0 to |keys|
      invariant text == MasterText(keys[..i], m)
    {
      var key := keys[i];
      MasterTextNext(keys, i, m);
      if key in m {
        text := text + key;
        text := text + m[key];
      }
    }
    assert keys[..|keys|] == keys;
  }

  lemma MasterTextNext(keys: seq<string>, i: nat, m: map<string, string>)
    requires i < |keys|
    ensures MasterText(keys[..i + 1], m) ==
            if keys[i] in m then MasterText(keys[..i], m) + keys[i] + m[keys[i]] else MasterText(keys[..i], m)
  {
    assert keys[..i + 1][..i] == keys[..i];
  }

  /** The master hash of a map: the digest of its entries in ascending key
      order. */
  ghost function MasterHash(m: map<string, string>, textDigest: string -> string): string
  {
    textDigest(MasterText(SortedKeys(m.Keys), m))
  }

  /** Whatever order the map hands out its keys in, sorting them yields the
      same text: the master hash depends on the entries alone. */
  lemma MasterTextOrderFree(keys: seq<string>, m: map<string, string>)
    requires Distinct(keys) && Elems(keys) == m.Keys
    ensures MasterText(Sort(keys), m) == MasterText(SortedKeys(m.Keys), m)
  {
    SortedUnique(Sort(keys), SortedKeys(m.Keys));
  }

  // ---------------------------------------------------------------------
  // The remote store

  /** The three settings of the remote cache the tool reads. */
  datatype RemoteCacheConfig = RemoteCacheConfig(remote: string, token: Option<string>, push: bool)

  /** What an HTTP request came back with. */
  datatype HttpOutcome = Response(status: nat) | NetworkError(message: string)

  /** A request sent to the remote store, with the bearer token if any. */
  datatype Request = Request(url: string, bearer: Option<string>)

  function ArchiveName(masterHash: string): string
  {
    masterHash + ".tar.gz"
  }

  /** The address of an archive: the remote with its trailing '/' removed,
      then "/cache/", the master hash and ".tar.gz". */
  function RemoteUrl(remote: string, masterHash: string): (url: string)
    ensures exists n :: 0 <= n <= |remote| && url == remote[..n] + "/cache/" + masterHash + ".tar.gz" &&
                        (n == 0 || remote[n - 1] != '/') &&
                        forall i :: n <= i < |remote| ==> remote[i] == '/'
  {
    TrimEnd(remote, '/') + "/cache/" + ArchiveName(masterHash)
  }

  /** A remote written with or without a trailing '/' addresses the same
      archive. */
  lemma RemoteUrlTrailingSlash(remote: string, masterHash: string)
    ensures RemoteUrl(remote + "/", masterHash) == RemoteUrl(remote, masterHash)
  {
    TrimEndAppend(remote, '/');
  }

  /** The contents of .forge/cache.json once parsed. */
  datatype CacheRecord = CacheRecord(version: nat, fileHashes: map<string, string>, lastBuildTimestamp: Option<nat>)

  /** The cache file as `load` finds it; `Stored(None)` is a file that does
      not parse. */
  datatype CacheFile = Absent | Unreadable(message: string) | Stored(parsed: Option<CacheRecord>)

  function CachePath(projectDir: string): string
  {
    JoinPath(JoinPath(projectDir, ".forge"), "cache.json")
  }

  class BuildCache {
    var version: nat
    var fileHashes: map<string, string>
    var lastBuildTimestamp: Option<nat>

    /** The default cache: version 0, no hashes, no timestamp. */
    constructor ()
      ensures version == 0 && fileHashes == map[] && lastBuildTimestamp == None
    {
      version := 0;
      fileHashes := map[];
      lastBuildTimestamp := None;
    }

    constructor FromRecord(rec: CacheRecord)
      ensures version == rec.version && fileHashes == rec.fileHashes
      ensures lastBuildTimestamp == rec.lastBuildTimestamp
    {
      version := rec.version;
      fileHashes := rec.fileHashes;
      lastBuildTimestamp := rec.lastBuildTimestamp;
    }

    /** No cache file gives a fresh version-1 cache; a file that cannot be
        read or parsed is an error, never a fresh cache. */
    static method Load(projectDir: string, file: CacheFile) returns (r: Result<BuildCache>)
      ensures file.Absent? ==>
                r.Ok? && fresh(r.value) && r.value.version == 1 &&
                r.value.fileHashes == map[] && r.value.lastBuildTimestamp == None
      ensures file.Unreadable? ==> r == Err(IoError(CachePath(projectDir), file.message))
      ensures file == Stored(None) ==> r == Err(CacheCorrupted(CachePath(projectDir)))
      ensures file.Stored? && file.parsed.Some? ==>
                r.Ok? && fresh(r.value) &&
                r.value.version == file.parsed.value.version &&
                r.value.fileHashes == file.parsed.value.fileHashes &&
                r.value.lastBuildTimestamp == file.parsed.value.lastBuildTimestamp
    {
      if file.Absent? {
        var c := new BuildCache();
        c.version := 1;
        r := Ok(c);
      } else if file.Unreadable? {
        r := Err(IoError(CachePath(projectDir), file.message));
      } else if file.parsed.None? {
        r := Err(CacheCorrupted(CachePath(projectDir)));
      } else {
        var c := new BuildCache.FromRecord(file.parsed.value);
        r := Ok(c);
      }
    }

    /** Hashes every tracked file of the tree, in walk order. */
    static method ComputeHashes(sourceDir: string, tree: SourceTree, extensions: seq<string>,
                                digest: seq<bv8> -> string) returns (r: Result<map<string, string>>)
      ensures r == Hashes(sourceDir, tree, extensions, digest)
    {
      if tree.Missing? {
        return Ok(map[]);
      }
      var es := tree.entries;
      var hashes: map<string, string> := map[];
      for i := 0 to |es|
        invariant HashEntries(sourceDir, es[..i], extensions, digest) == Ok(hashes)
      {
        HashEntriesNext(sourceDir, es, i, extensions, digest);
        match es[i]
        case WalkFailure =>
        case Directory(_) =>
        case File(rel, content) =>
          if Tracked(rel, extensions) {
            match content
            case ReadFailure(message) =>
              r := Err(IoError(JoinPath(sourceDir, rel), message));
              HashEntriesErrStays(sourceDir, es, i + 1, extensions, digest);
              return;
            case Bytes(data) =>
              hashes := hashes[rel := digest(data)];
          }
      }
      assert es[..|es|] == es;
      r := Ok(hashes);
    }

    /** Whether the tree differs from the stored hashes: a new, a modified or
        a deleted file. */
    method HasChanges(sourceDir: string, tree: SourceTree, extensions: seq<string>,
                      digest: seq<bv8> -> string) returns (r: Result<bool>)
      ensures var h := Hashes(sourceDir, tree, extensions, digest);
              (h.Err? ==> r == Err(h.error)) && (h.Ok? ==> r == Ok(h.value != fileHashes))
    {
      var computed := ComputeHashes(sourceDir, tree, extensions, digest);
      if computed.Err? {
        return Err(computed.error);
      }
      var differ := MapsDiffer(computed.value, fileHashes);
      return Ok(differ);
    }

    /** Replaces the stored hashes by those of the tree and stamps the time
        `now`; on a hashing error nothing changes. */
    method UpdateHashes(sourceDir: string, tree: SourceTree, extensions: seq<string>,
                        digest: seq<bv8> -> string, now: nat) returns (r: Result<()>)
      modifies this
      ensures var h := Hashes(sourceDir, tree, extensions, digest);
              (h.Err? ==> r == Err(h.error) && unchanged(this)) &&
              (h.Ok? ==> r == Ok(()) && fileHashes == h.value &&
                         lastBuildTimestamp == Some(now) && version == old(version))
    {
      var computed := ComputeHashes(sourceDir, tree, extensions, digest);
      if computed.Err? {
        return Err(computed.error);
      }
      fileHashes := computed.value;
      lastBuildTimestamp := Some(now);
      r := Ok(());
    }

    /** Updating the hashes and checking the same tree again finds nothing to
        rebuild. */
    method UpdateThenCheck(sourceDir: string, tree: SourceTree, extensions: seq<string>,
                           digest: seq<bv8> -> string, now: nat) returns (r: Result<bool>)
      modifies this
      ensures Hashes(sourceDir, tree, extensions, digest).Ok? ==> r == Ok(false)
    {
      var u := UpdateHashes(sourceDir, tree, extensions, digest, now);
      r := HasChanges(sourceDir, tree, extensions, digest);
    }

    /** The current paths whose stored hash is absent or different, each
        once; deleted paths are not listed. */
    method ChangedFiles(sourceDir: string, tree: SourceTree, extensions: seq<string>,
                        digest: seq<bv8> -> string) returns (r: Result<seq<string>>)
      ensures var h := Hashes(sourceDir, tree, extensions, digest);
              (h.Err? ==> r == Err(h.error)) &&
              (h.Ok? ==> r.Ok? && Elems(r.value) == ChangedSet(h.value, fileHashes) && Distinct(r.value))
    {
      var computed := ComputeHashes(sourceDir, tree, extensions, digest);
      if computed.Err? {
        return Err(computed.error);
      }
      var current := computed.value;
      var paths := EnumerateKeys(current.Keys);
      var changed: seq<string> := [];
      for i := 0 to |paths|
        invariant Elems(changed) == ChangedSet(current, fileHashes) * Elems(paths[..i])
        invariant Distinct(changed) && Elems(changed) <= Elems(paths[..i])
      {
        var path := paths[i];
        ElemsPrefix(paths, i);
        assert path in Elems(paths);
        if !(path in fileHashes && fileHashes[path] == current[path]) {
          DistinctAppend(changed, path);
          ElemsAppend(changed, path);
          changed := changed + [path];
        }
      }
      ElemsWhole(paths);
      r := Ok(changed);
    }

    /** The digest of every stored path followed by its hash, in ascending
        path order. */
    method ComputeMasterHash(textDigest: string -> string) returns (r: Result<string>)
      ensures r == Ok(MasterHash(fileHashes, textDigest))
    {
      var keys := EnumerateKeys(fileHashes.Keys);
      var sortedKeys := Sort(keys);
      MasterTextOrderFree(keys, fileHashes);
      var text := ConcatEntries(sortedKeys, fileHashes);
      return Ok(textDigest(text));
    }

    /** Archives the output directory and sends it to the remote store. Only
        the local steps can fail; whatever the store answers, the upload
        succeeds. */
    method UploadToRemote(projectDir: string, outputDirName: string, config: RemoteCacheConfig,
                          tempDir: string, textDigest: string -> string, outputExists: bool,
                          tempFile: IoOutcome, archive: IoOutcome, response: HttpOutcome)
      returns (r: Result<()>, sent: Option<Request>)
      ensures !config.push ==> r == Ok(()) && sent == None
      ensures config.push && !outputExists ==> r == Ok(()) && sent == None
      ensures config.push && outputExists && tempFile.Failed? ==>
                r == Err(IoError(JoinPath(tempDir, ArchiveName(MasterHash(fileHashes, textDigest))), tempFile.message)) &&
                sent == None
      ensures config.push && outputExists && tempFile.Succeeded? && archive.Failed? ==>
                r == Err(IoError(JoinPath(projectDir, outputDirName), "Error al comprimir caché: " + archive.message)) &&
                sent == None
      ensures config.push && outputExists && tempFile.Succeeded? && archive.Succeeded? ==>
                r == Ok(()) && sent == Some(Request(RemoteUrl(config.remote, MasterHash(fileHashes, textDigest)), config.token))
    {
      if !config.push {
        return Ok(()), None;
      }
      var master := ComputeMasterHash(textDigest);
      var archiveName := ArchiveName(master.value);
      var remoteUrl := RemoteUrl(config.remote, master.value);
      if !outputExists {
        return Ok(()), None;
      }
      if tempFile.Failed? {
        return Err(IoError(JoinPath(tempDir, archiveName), tempFile.message)), None;
      }
      if archive.Failed? {
        return Err(IoError(JoinPath(projectDir, outputDirName), "Error al comprimir caché: " + archive.message)), None;
      }
      sent := Some(Request(remoteUrl, config.token));
      match response
      case Response(status) =>
        r := Ok(());
      case NetworkError(_) =>
        r := Ok(());
    }

    /** Fetches the archive for the current master hash. A hit that unpacks
        gives true; a miss, a failed request or a failed unpack gives false. */
    method DownloadFromRemote(projectDir: string, outputDirName: string, config: RemoteCacheConfig,
                              textDigest: string -> string, response: HttpOutcome, unpack: IoOutcome)
      returns (r: Result<bool>, sent: Request)
      ensures sent == Request(RemoteUrl(config.remote, MasterHash(fileHashes, textDigest)), config.token)
      ensures r == Ok(true) <==> response.Response? && IsSuccess(response.status) && unpack.Succeeded?
      ensures r.Ok?
    {
      var master := ComputeMasterHash(textDigest);
      sent := Request(RemoteUrl(config.remote, master.value), config.token);
      if response.Response? && IsSuccess(response.status) {
        if unpack.Failed? {
          return Ok(false), sent;
        }
        return Ok(true), sent;
      }
      r := Ok(false);
    }
  }
}
