/**
 The checksum-verified download cache of pkg/binaries/download.go. Files are a map from places to
 contents. Unless the machine is reliable, every file operation, hash and download may fail at any
 point and the network may deliver anything; a reliable one gets what the network has.
 */
module Download {
  import opened Text

  datatype Binary = Binary(os: string, arch: string, checksum: string,
                           path: string, archivePath: string, name: string)

  /** Below the target folder of one binary name, in the shared cache, or elsewhere on the machine. */
  datatype Place = Target(folder: string, file: string) | Cached(key: string) | Local(path: string)

  type Files = map<Place, string>

  predicate IsRemotePath(path: string) {
    "http://" <= path || "https://" <= path
  }

  predicate IsAbs(path: string) {
    "/" <= path
  }

  function FileName(b: Binary): string {
    if b.name != "" then b.name else Base(b.path)
  }

  function BinaryPath(b: Binary, folder: string): Place {
    if IsAbs(b.path) then Local(b.path)
    else if IsRemotePath(b.path) && b.archivePath != "" then Target(folder, b.archivePath)
    else Target(folder, FileName(b))
  }

  /** The file that a download of the binary is expected to write below its folder. */
  function Asked(b: Binary): string {
    if b.archivePath != "" then b.archivePath else FileName(b)
  }

  /** Where a download ends up: the path in the archive, the name given, or the last part of the URL. */
  lemma AskedIs(b: Binary, dir: string, last: string, folder: string)
    requires IsRemotePath(b.path) && b.path == dir + "/" + last && last != "" && '/' !in last
    ensures BinaryPath(b, folder)
            == Target(folder, if b.archivePath != "" then b.archivePath else if b.name != "" then b.name else last)
    ensures BinaryPath(b, folder) == Target(folder, Asked(b))
  {
    hide Base;
    assert b.path[0] == 'h';
    BaseOf(dir, last);
  }

  /** An absolute path, or a URL that is not the path of a local file. */
  predicate Fetched(files: Files, b: Binary) {
    IsAbs(b.path) || (IsRemotePath(b.path) && Local(b.path) !in files)
  }

  ghost predicate SameOutside(before: Files, after: Files, folder: string) {
    forall p: Place :: !(p.Target? && p.folder == folder) ==>
      (p in before <==> p in after) && (p in before ==> before[p] == after[p])
  }

  class Machine {
    const fileHash: string -> string
    const cacheKey: string -> string
    const os: string
    const arch: string
    /** No operation fails, and a download delivers the files `network` has for the binary. */
    const reliable: bool
    const network: Binary -> map<string, string>
    var files: Files

    constructor (fileHash: string -> string, cacheKey: string -> string, os: string, arch: string,
                 reliable: bool, network: Binary -> map<string, string>, files: Files)
      ensures this.fileHash == fileHash && this.cacheKey == cacheKey && this.os == os && this.arch == arch
      ensures this.reliable == reliable && this.network == network && this.files == files
    {
      this.fileHash, this.cacheKey, this.os, this.arch := fileHash, cacheKey, os, arch;
      this.reliable, this.network, this.files := reliable, network, files;
    }

    /** The content at a place has the checksum, up to letter case. */
    predicate Genuine(files: Files, p: Place, checksum: string) {
      p in files && ToLower(fileHash(files[p])) == ToLower(checksum)
    }

    predicate Matches(b: Binary) {
      b.os == os && b.arch == arch
    }

    /** The network has the file asked for, with the checksum asked for. */
    predicate Obtainable(b: Binary) {
      && IsRemotePath(b.path) && Asked(b) in network(b)
      && (b.checksum != "" ==> ToLower(fileHash(network(b)[Asked(b)])) == ToLower(b.checksum))
    }

    /** It can be had: nothing fails, the network has it, and its URL is not the path of a local file. */
    predicate Gettable(files: Files, b: Binary) {
      reliable && Obtainable(b) && Local(b.path) !in files
    }

    /** The places that handling a binary may change. */
    predicate Touches(b: Binary, folder: string, p: Place) {
      || p == Cached(cacheKey(b.path)) || (p == Local(b.path) && IsAbs(b.path)) || (p.Target? && p.folder == folder)
    }

    ghost predicate SameElsewhere(before: Files, after: Files, b: Binary, folder: string) {
      forall p :: !Touches(b, folder, p) ==>
        (p in before <==> p in after) && (p in before ==> before[p] == after[p])
    }

    /** Whether the next operation fails. */
    method Fault() returns (fault: bool)
      ensures reliable ==> !fault
    {
      fault := *;
      fault := fault && !reliable;
    }

    /** `os.Remove` with its error ignored. */
    method Remove(p: Place)
      modifies this
      ensures files == old(files) || files == old(files) - {p}
      ensures reliable ==> files == old(files) - {p}
    {
      var fault := Fault();
      if !fault {
        files := files - {p};
      }
    }

    /** `copy.File`: the destination is cut to length zero before anything is copied. */
    method CopyFile(src: Place, dst: Place) returns (ok: bool)
      modifies this
      ensures ok ==> src in old(files) && files == old(files)[dst := old(files)[src]]
      ensures !ok ==> files == old(files) || (dst in files && files == old(files)[dst := files[dst]])
      ensures reliable && src in old(files) ==> ok
    {
      var fault := Fault();
      if fault {
        return false;
      }
      if src !in files {
        files := files[dst := ""];
        return false;
      }
      var content := files[src];
      fault := Fault();
      if fault {
        var copied: nat :| copied <= |content|;
        files := files[dst := content[..copied]];
        return false;
      }
      files := files[dst := content];
      return true;
    }

    /** hash.File and EqualFold, on a file that may be gone or unreadable. */
    method HasChecksum(p: Place, checksum: string) returns (ok: bool)
      ensures ok ==> Genuine(files, p, checksum)
      ensures reliable ==> (ok <==> Genuine(files, p, checksum))
    {
      var fault := Fault();
      if fault {
        return false;
      }
      return p in files && ToLower(fileHash(files[p])) == ToLower(checksum);
    }

    method VerifyBinary(p: Place, checksum: string) returns (ok: bool)
      modifies this
      ensures ok ==> files == old(files) && p in files && (checksum != "" ==> Genuine(files, p, checksum))
      ensures files == old(files) || files == old(files) - {p}
      ensures p in old(files) && checksum == "" ==> ok
      ensures reliable ==> (ok <==> p in old(files) && (checksum != "" ==> Genuine(old(files), p, checksum)))
      ensures reliable && !ok ==> files == old(files) - {p}
    {
      if p !in files {
        return false;
      }
      if checksum != "" {
        var same := HasChecksum(p, checksum);
        if !same {
          Remove(p);
          return false;
        }
      }
      return true;
    }

    method ToCache(b: Binary, p: Place, ghost folder: string)
      modifies this
      ensures SameElsewhere(old(files), files, b, folder)
      ensures forall q: Place :: !q.Cached? ==>
                (q in files <==> q in old(files)) && (q in files ==> files[q] == old(files)[q])
      ensures reliable && IsRemotePath(b.path) && p in old(files) ==>
                files == old(files)[Cached(cacheKey(b.path)) := old(files)[p]]
    {
      if !IsRemotePath(b.path) {
        return;
      }
      var fault := Fault();
      if fault {
        return;
      }
      var _ := CopyFile(p, Cached(cacheKey(b.path)));
    }

    method FromCache(b: Binary, folder: string) returns (ok: bool)
      modifies this
      ensures SameElsewhere(old(files), files, b, folder)
      ensures ok ==>
                && Cached(cacheKey(b.path)) in old(files) && BinaryPath(b, folder) in files
                && files[BinaryPath(b, folder)] == old(files)[Cached(cacheKey(b.path))]
      ensures ok && b.checksum != "" ==> Genuine(files, BinaryPath(b, folder), b.checksum)
      ensures Cached(cacheKey(b.path)) !in old(files) ==> !ok && files == old(files)
      ensures reliable && !ok && BinaryPath(b, folder) in files ==> BinaryPath(b, folder) in old(files)
      ensures reliable && IsRemotePath(b.path) ==>
                (ok <==> Cached(cacheKey(b.path)) in old(files)
                         && (b.checksum != "" ==> Genuine(old(files), Cached(cacheKey(b.path)), b.checksum)))
    {
      if !IsRemotePath(b.path) {
        return false;
      }
      var p, cached := BinaryPath(b, folder), Cached(cacheKey(b.path));
      var verified := VerifyBinary(cached, b.checksum);
      if !verified {
        return false;
      }
      var fault := Fault();
      if fault {
        return false;
      }
      var copied := CopyFile(cached, p);
      if !copied {
        return false;
      }
      fault := Fault();
      return !fault;
    }

    /** `os.RemoveAll(targetFolder)` */
    method RemoveFolder(folder: string)
      modifies this
      ensures SameOutside(old(files), files, folder)
    {
      var fault := Fault();
      if !fault {
        files := map p | p in files && !(p.Target? && p.folder == folder) :: files[p];
      }
    }

    /** A download or extraction: any files of any content below the folder, complete or cut short. */
    method Fetch(b: Binary, folder: string, p: Place) returns (ok: bool)
      requires p.Target? && p.folder == folder
      modifies this
      ensures SameOutside(old(files), files, folder)
      ensures p in old(files) ==> ok && files == old(files)
      ensures reliable && p !in old(files) && p.file in network(b) ==>
                ok && p in files && files[p] == network(b)[p.file]
    {
      if p in files {
        return true;
      }
      var delivered: map<string, string> := *;
      if reliable {
        delivered := network(b);
      }
      assert forall q: Place :: q.Target? ==> q == Target(q.folder, q.file);
      var written := map q | q in (set f | f in delivered :: Target(folder, f)) :: delivered[q.file];
      files := files + written;
      var fault := Fault();
      ok := !fault;
    }

    /**
     What is returned for a URL or an absolute path is a file that is there. A relative path that
     exists is not copied: the place returned for it holds what it held before, if anything.
     */
    method DownloadBinary(b: Binary, folder: string) returns (r: Option<Place>)
      modifies this
      ensures SameElsewhere(old(files), files, b, folder)
      ensures r.Some? ==> (r.value.Target? && r.value.folder == folder) || (r.value == Local(b.path) && IsAbs(b.path))
      ensures r.Some? && Fetched(old(files), b) ==> r.value in files
      ensures r.Some? && Local(b.path) in old(files) ==> files == old(files)
      ensures Gettable(old(files), b) ==>
                var p := Target(folder, Asked(b));
                && r == Some(p)
                && (if p in old(files) then files == old(files) else files[p] == network(b)[Asked(b)])
    {
      if Local(b.path) in files {
        if IsAbs(b.path) {
          return Some(Local(b.path));
        }
        var fault := Fault();
        if fault {
          return None;
        }
        var sameSize: bool := *; // copyLocal is given the folder: it copies nothing, or fails
        if !sameSize {
          RemoveFolder(folder);
          return None;
        }
        return Some(Target(folder, FileName(b)));
      }
      if !IsRemotePath(b.path) {
        if Target(folder, FileName(b)) in files {
          return Some(Target(folder, FileName(b)));
        }
        return None;
      }
      var fault := Fault();
      if fault {
        return None;
      }
      var p := Target(folder, Asked(b));
      var fetched := Fetch(b, folder, p);
      if !fetched {
        RemoveFolder(folder);
        return None;
      }
      if p !in files {
        return None;
      }
      return Some(p);
    }

    lemma SameTransitive(f: Files, g: Files, h: Files, b: Binary, folder: string)
      requires SameElsewhere(f, g, b, folder) && SameElsewhere(g, h, b, folder)
      ensures SameElsewhere(f, h, b, folder)
    {
    }

    /** One download: kept and cached if it has the checksum, removed if not. */
    method DownloadOnce(b: Binary, folder: string) returns (r: Option<Place>, kept: bool)
      modifies this
      ensures SameElsewhere(old(files), files, b, folder)
      ensures r.Some? && kept ==> Provided(old(files), files, b, folder, r.value)
      ensures Gettable(old(files), b) ==>
                var p := Target(folder, Asked(b));
                && r == Some(p)
                && (kept && p !in old(files) ==> files[p] == network(b)[Asked(b)])
                && (!kept ==> p in old(files) && p !in files)
    {
      hide Asked, ToLower;
      ghost var before := files;
      r := DownloadBinary(b, folder);
      if r.None? {
        return r, false;
      }
      RemoteUntouched(before, files, b, folder, b);
      if b.checksum != "" {
        var same := HasChecksum(r.value, b.checksum);
        if !same {
          Remove(r.value);
          return r, false;
        }
      }
      ghost var middle := files;
      ToCache(b, r.value, folder);
      SameTransitive(before, middle, files, b, folder);
      return r, true;
    }

    /** Up to three downloads; None if a download fails, Some(None) if no attempt had the checksum. */
    method TryDownload(b: Binary, folder: string) returns (r: Option<Option<Place>>)
      modifies this
      ensures SameElsewhere(old(files), files, b, folder)
      ensures r.Some? && r.value.Some? ==> Provided(old(files), files, b, folder, r.value.value)
      ensures Gettable(old(files), b) ==>
                var p := Target(folder, Asked(b));
                r == Some(Some(p)) && (p !in old(files) ==> files[p] == network(b)[Asked(b)])
    {
      hide SameElsewhere, Genuine, Asked;
      ghost var good, at := Gettable(files, b), Target(folder, Asked(b));
      SameRefl(files, b, folder);
      for i := 0 to 3
        invariant SameElsewhere(old(files), files, b, folder)
        invariant good && i > 0 ==> i == 1 && at !in files && at in old(files)
        invariant good && i == 0 ==> files == old(files)
      {
        ghost var before := files;
        RemoteUntouched(old(files), before, b, folder, b);
        var downloaded, kept := DownloadOnce(b, folder);
        SameTransitive(old(files), before, files, b, folder);
        if downloaded.None? {
          return None;
        }
        if kept {
          return Some(Some(downloaded.value));
        }
      }
      return Some(None);
    }

    lemma SameRefl(f: Files, b: Binary, folder: string)
      ensures SameElsewhere(f, f, b, folder)
    {
    }

    /** A place returned for a binary: its own, holding a file with the checksum asked for. */
    ghost predicate Provided(before: Files, after: Files, b: Binary, folder: string, p: Place) {
      && ((p.Target? && p.folder == folder) || (p == Local(b.path) && IsAbs(b.path)))
      && (Fetched(before, b) ==> p in after)
      && (b.checksum != "" ==> Genuine(after, p, b.checksum))
    }

    /** One matching location: found, from the cache, or downloaded. */
    method Provide(b: Binary, folder: string) returns (r: Option<Option<Place>>)
      modifies this
      ensures SameElsewhere(old(files), files, b, folder)
      ensures r.Some? && r.value.Some? ==> Provided(old(files), files, b, folder, r.value.value)
      ensures Gettable(old(files), b) ==>
                var p := Target(folder, Asked(b));
                && r == Some(Some(p))
                && p in files
                && (p !in old(files) && Cached(cacheKey(b.path)) !in old(files) ==> files[p] == network(b)[Asked(b)])
    {
      hide Asked, FileName;
      ghost var before := files;
      RemoteIsAsked(b, folder);
      var p := BinaryPath(b, folder);
      var present := VerifyBinary(p, b.checksum);
      if present {
        return Some(Some(p));
      }
      ghost var verified := files;
      RemoteUntouched(before, verified, b, folder, b);
      var cached := FromCache(b, folder);
      SameTransitive(before, verified, files, b, folder);
      if cached {
        return Some(Some(p));
      }
      ghost var searched := files;
      RemoteUntouched(before, searched, b, folder, b);
      r := TryDownload(b, folder);
      SameTransitive(before, searched, files, b, folder);
    }

    lemma RemoteIsAsked(b: Binary, folder: string)
      ensures BinaryPath(b, folder).Target? ==> BinaryPath(b, folder).folder == folder
      ensures BinaryPath(b, folder).Local? ==> BinaryPath(b, folder) == Local(b.path) && IsAbs(b.path)
      ensures IsRemotePath(b.path) ==> BinaryPath(b, folder) == Target(folder, Asked(b)) && !IsAbs(b.path)
      ensures !BinaryPath(b, folder).Cached?
    {
      if IsRemotePath(b.path) {
        assert b.path[0] == 'h';
      }
    }

    // ---- all binaries ----

    /** At most one location of every name is for this machine. */
    predicate OneLocation(locations: seq<Binary>) {
      forall j, k :: 0 <= j < k < |locations| ==> !(Matches(locations[j]) && Matches(locations[k]))
    }

    /** Names do not share a folder, and their locations do not share an absolute path. */
    predicate Separate(binaries: map<string, seq<Binary>>) {
      forall n, m :: n in binaries && m in binaries && n != m ==>
        && ToLower(n) != ToLower(m)
        && NoSharedPath(binaries[n], binaries[m])
    }

    predicate NoSharedPath(a: seq<Binary>, b: seq<Binary>) {
      forall j, k :: 0 <= j < |a| && 0 <= k < |b| && Matches(a[j]) && Matches(b[k]) && IsAbs(a[j].path) ==>
        a[j].path != b[k].path
    }

    predicate Disciplined(binaries: map<string, seq<Binary>>) {
      Separate(binaries) && forall n :: n in binaries ==> OneLocation(binaries[n])
    }

    /** The returned place of a name is its own, holds a file, and what lies there has the checksum asked for. */
    ghost predicate Delivered(files: Files, name: string, locations: seq<Binary>, p: Place) {
      exists k :: 0 <= k < |locations| && Matches(locations[k])
        && Provided(files, files, locations[k], ToLower(name), p)
    }

    /** Handling one name does not disturb what another name was given. */
    lemma Undisturbed(binaries: map<string, seq<Binary>>, before: Files, after: Files,
                      n: string, m: string, b: Binary, p: Place)
      requires Disciplined(binaries) && n in binaries && m in binaries && n != m
      requires b in binaries[m] && Matches(b) && SameElsewhere(before, after, b, ToLower(m))
      requires Delivered(before, n, binaries[n], p)
      ensures Delivered(after, n, binaries[n], p)
    {
      var k :| 0 <= k < |binaries[n]| && Matches(binaries[n][k])
        && Provided(before, before, binaries[n][k], ToLower(n), p);
      var j :| 0 <= j < |binaries[m]| && binaries[m][j] == b;
      assert !Touches(b, ToLower(m), p);
      RemoteUntouched(before, after, b, ToLower(m), binaries[n][k]);
      assert Provided(after, after, binaries[n][k], ToLower(n), p);
    }

    /** Handling a binary neither makes nor removes a local file at the URL of another. */
    lemma RemoteUntouched(before: Files, after: Files, b: Binary, folder: string, other: Binary)
      requires SameElsewhere(before, after, b, folder)
      ensures Fetched(after, other) <==> Fetched(before, other)
      ensures IsRemotePath(other.path) ==> (Local(other.path) in after <==> Local(other.path) in before)
    {
      if IsRemotePath(other.path) {
        assert other.path[0] == 'h';
        assert !Touches(b, folder, Local(other.path));
      }
    }

    /** Every name has a location for this machine, and every such location can be had. */
    predicate AllGettable(files: Files, binaries: map<string, seq<Binary>>) {
      forall n :: n in binaries ==>
        && (exists k :: 0 <= k < |binaries[n]| && Matches(binaries[n][k]))
        && (forall k :: 0 <= k < |binaries[n]| && Matches(binaries[n][k]) ==> Gettable(files, binaries[n][k]))
    }

    lemma StillGettable(before: Files, after: Files, binaries: map<string, seq<Binary>>, b: Binary, folder: string)
      requires AllGettable(before, binaries) && SameElsewhere(before, after, b, folder)
      ensures AllGettable(after, binaries)
    {
      forall n, k | n in binaries && 0 <= k < |binaries[n]| && Matches(binaries[n][k])
        ensures Gettable(after, binaries[n][k])
      {
        RemoteUntouched(before, after, b, folder, binaries[n][k]);
      }
    }

    // ---- deliveries where nothing fails and nothing was there before ----

    /** Nothing is below the folder, and nothing in the cache for the binary. */
    predicate Vacant(files: Files, b: Binary, folder: string) {
      Cached(cacheKey(b.path)) !in files && forall p :: p in files ==> !(p.Target? && p.folder == folder)
    }

    /** Different names do not share an entry of the cache. */
    predicate DistinctKeys(binaries: map<string, seq<Binary>>) {
      forall n, m :: n in binaries && m in binaries && n != m ==> NoSharedKey(binaries[n], binaries[m])
    }

    predicate NoSharedKey(a: seq<Binary>, b: seq<Binary>) {
      forall j, k :: 0 <= j < |a| && 0 <= k < |b| && Matches(a[j]) && Matches(b[k]) ==>
        cacheKey(a[j].path) != cacheKey(b[k].path)
    }

    /** The place of a name holds exactly the file that the network has for it. */
    predicate Exact(files: Files, name: string, locations: seq<Binary>, p: Place) {
      exists k :: 0 <= k < |locations| && Matches(locations[k]) && Asked(locations[k]) in network(locations[k])
        && p == Target(ToLower(name), Asked(locations[k])) && p in files
        && files[p] == network(locations[k])[Asked(locations[k])]
    }

    /** Everything can be had; what is done is exact, and nothing is there yet for the other names. */
    ghost predicate Ideal(files: Files, binaries: map<string, seq<Binary>>, done: map<string, Place>) {
      && Disciplined(binaries) && DistinctKeys(binaries) && AllGettable(files, binaries)
      && (forall n :: n in done ==> n in binaries && Exact(files, n, binaries[n], done[n]))
      && (forall n, k :: n in binaries && n !in done && 0 <= k < |binaries[n]| && Matches(binaries[n][k]) ==>
            Vacant(files, binaries[n][k], ToLower(n)))
    }

    lemma ExactKept(before: Files, after: Files, n: string, locations: seq<Binary>, p: Place, b: Binary, folder: string)
      requires Exact(before, n, locations, p) && SameElsewhere(before, after, b, folder) && folder != ToLower(n)
      ensures Exact(after, n, locations, p)
    {
      assert !Touches(b, folder, p);
    }

    lemma VacantKept(before: Files, after: Files, c: Binary, n: string, b: Binary, folder: string)
      requires Vacant(before, c, n) && SameElsewhere(before, after, b, folder)
      requires folder != n && cacheKey(b.path) != cacheKey(c.path)
      ensures Vacant(after, c, n)
    {
      assert !Touches(b, folder, Cached(cacheKey(c.path)));
      assert forall p: Place :: p.Target? && p.folder == n ==> !Touches(b, folder, p);
    }

    lemma IdealStep(before: Files, after: Files, binaries: map<string, seq<Binary>>, done: map<string, Place>,
                    name: string, j: nat, p: Place)
      requires Ideal(before, binaries, done) && name in binaries && name !in done
      requires j < |binaries[name]| && Matches(binaries[name][j])
      requires SameElsewhere(before, after, binaries[name][j], ToLower(name))
      requires var b := binaries[name][j];
               && Asked(b) in network(b) && p == Target(ToLower(name), Asked(b))
               && p in after && after[p] == network(b)[Asked(b)]
      ensures Ideal(after, binaries, done[name := p])
    {
      hide Exact, Vacant, SameElsewhere, AllGettable, Asked, ToLower;
      var b := binaries[name][j];
      var done' := done[name := p];
      StillGettable(before, after, binaries, b, ToLower(name));
      assert Exact(after, name, binaries[name], p) by {
        ExactNow(after, name, binaries[name], j, p);
      }
      forall n | n in done ensures Exact(after, n, binaries[n], done[n]) {
        ExactKept(before, after, n, binaries[n], done[n], b, ToLower(name));
      }
      forall n, k | n in binaries && n !in done' && 0 <= k < |binaries[n]| && Matches(binaries[n][k])
        ensures Vacant(after, binaries[n][k], ToLower(n))
      {
        VacantKept(before, after, binaries[n][k], ToLower(n), b, ToLower(name));
      }
    }

    /** What a name that is not done yet can rely on. */
    lemma IdealNext(files: Files, binaries: map<string, seq<Binary>>, done: map<string, Place>, name: string, j: nat)
      requires Ideal(files, binaries, done) && name in binaries && name !in done
      requires j < |binaries[name]| && Matches(binaries[name][j])
      ensures var b := binaries[name][j];
              && Gettable(files, b) && Asked(b) in network(b)
              && Target(ToLower(name), Asked(b)) !in files && Cached(cacheKey(b.path)) !in files
      ensures AllGettable(files, binaries)
      ensures forall k :: 0 <= k < |binaries[name]| && Matches(binaries[name][k]) ==> k == j
    {
      hide Asked, ToLower;
      assert Vacant(files, binaries[name][j], ToLower(name));
    }

    lemma IdealEnd(files: Files, binaries: map<string, seq<Binary>>, done: map<string, Place>)
      requires Ideal(files, binaries, done) && done.Keys == binaries.Keys
      ensures forall n :: n in binaries ==> Exact(files, n, binaries[n], done[n])
    {
      hide Exact;
    }

    lemma IdealGettable(files: Files, binaries: map<string, seq<Binary>>, done: map<string, Place>)
      requires Ideal(files, binaries, done)
      ensures AllGettable(files, binaries)
    {
    }

    lemma ExactNow(files: Files, name: string, locations: seq<Binary>, j: nat, p: Place)
      requires j < |locations| && Matches(locations[j]) && Asked(locations[j]) in network(locations[j])
      requires p == Target(ToLower(name), Asked(locations[j])) && p in files
      requires files[p] == network(locations[j])[Asked(locations[j])]
      ensures Exact(files, name, locations, p)
    {
    }

    /**
     When it succeeds, every name has a place; for a URL or an absolute path there is a file, and with
     a checksum it has content with that hash: through found files, half-copied cache entries and
     failed downloads, as long as names have one location each and do not share places. And it does
     succeed if nothing fails and the network has what is asked for; on a machine without a cache and
     without files for these names, with exactly what the network has.
     */
    method DownloadBinaries(binaries: map<string, seq<Binary>>) returns (r: Option<map<string, Place>>)
      modifies this
      ensures r.Some? ==> r.value.Keys == binaries.Keys
      ensures r.Some? && Disciplined(binaries) ==>
                forall n :: n in binaries ==> Delivered(files, n, binaries[n], r.value[n])
      ensures AllGettable(old(files), binaries) ==> r.Some?
      ensures Ideal(old(files), binaries, map[]) ==>
                r.Some? && forall n :: n in binaries ==> Exact(files, n, binaries[n], r.value[n])
    {
      hide Ideal, Exact, AllGettable, Delivered, Disciplined;
      ghost var ideal := Ideal(files, binaries, map[]);
      if ideal {
        IdealGettable(files, binaries, map[]);
      }
      var ret: map<string, Place> := map[];
      var todo := binaries.Keys;
      while todo != {}
        invariant todo <= binaries.Keys && ret.Keys == binaries.Keys - todo
        invariant Disciplined(binaries) ==> forall n :: n in ret ==> Delivered(files, n, binaries[n], ret[n])
        invariant AllGettable(old(files), binaries) ==> AllGettable(files, binaries)
        invariant ideal ==> Ideal(files, binaries, ret)
        decreases todo
      {
        var name :| name in todo;
        todo := todo - {name};
        var p := ProvideName(binaries, name, ret);
        if p.None? {
          return None;
        }
        ret := ret[name := p.value];
      }
      if ideal {
        IdealEnd(files, binaries, ret);
      }
      return Some(ret);
    }

    /** The loop over the locations of one name. */
    method ProvideName(binaries: map<string, seq<Binary>>, name: string, ghost ret: map<string, Place>)
      returns (r: Option<Place>)
      requires name in binaries && name !in ret && ret.Keys <= binaries.Keys
      requires Disciplined(binaries) ==> forall n :: n in ret ==> Delivered(files, n, binaries[n], ret[n])
      modifies this
      ensures Disciplined(binaries) ==> forall n :: n in ret ==> Delivered(files, n, binaries[n], ret[n])
      ensures Disciplined(binaries) && r.Some? ==> Delivered(files, name, binaries[name], r.value)
      ensures AllGettable(old(files), binaries) ==> AllGettable(files, binaries) && r.Some?
      ensures Ideal(old(files), binaries, ret) ==> r.Some? && Ideal(files, binaries, ret[name := r.value])
    {
      hide Provided, Gettable, Ideal, Asked;
      ghost var ideal := Ideal(files, binaries, ret);
      if ideal {
        IdealGettable(files, binaries, ret);
      }
      var locations := binaries[name];
      var folder := ToLower(name);
      r := None;
      for k := 0 to |locations|
        invariant Disciplined(binaries) ==> forall n :: n in ret ==> Delivered(files, n, binaries[n], ret[n])
        invariant r.Some? ==> exists j :: 0 <= j < k && Matches(locations[j])
        invariant Disciplined(binaries) && r.Some? ==> Delivered(files, name, locations, r.value)
        invariant AllGettable(old(files), binaries) ==> AllGettable(files, binaries)
        invariant AllGettable(old(files), binaries) && r.None? ==> forall j :: 0 <= j < k ==> !Matches(locations[j])
        invariant ideal ==> Ideal(files, binaries, if r.None? then ret else ret[name := r.value])
      {
        var b := locations[k];
        if !Matches(b) {
          continue;
        }
        ghost var before := files;
        if ideal {
          IdealNext(old(files), binaries, ret, name, k);
        }
        if ideal && r.None? {
          IdealNext(before, binaries, ret, name, k);
        }
        var provided := Provide(b, folder);
        forall n | Disciplined(binaries) && n in ret ensures Delivered(files, n, binaries[n], ret[n]) {
          Undisturbed(binaries, before, files, n, name, b, ret[n]);
        }
        if AllGettable(before, binaries) {
          StillGettable(before, files, binaries, b, folder);
        }
        if ideal && r.None? {
          IdealStep(before, files, binaries, ret, name, k, provided.value.value);
        }
        if provided.None? {
          return None;
        }
        if provided.value.Some? {
          r := provided.value;
          ProvidedNow(before, files, b, folder, r.value);
        } else if r.None? {
          return None;
        }
      }
    }

    lemma ProvidedNow(before: Files, after: Files, b: Binary, folder: string, p: Place)
      requires SameElsewhere(before, after, b, folder) && Provided(before, after, b, folder, p)
      ensures Provided(after, after, b, folder, p)
    {
      RemoteUntouched(before, after, b, folder, b);
    }
  }
}
