/** Updating an installed depot by writing only the chunks the old manifest does not have. */
module Delta {
  import opened Common
  import opened FileWrites
  import opened Manifests
  import opened Install

  /** The added and changed files, picked by name. */
  function FilesToWrite(m: Manifest, names: set<string>): seq<File>
    decreases |m|
  {
    if m == [] then []
    else FilesToWrite(m[..|m| - 1], names) + if m[|m| - 1].name in names then [m[|m| - 1]] else []
  }

  function ChangedNames(d: Diff): set<string> {
    set n | n in d.added + d.changed
  }

  /** The directory after a delta update whose downloads all succeed. */
  function DeltaResult(before: Dir, m: Manifest, d: Diff, store: Store): Dir {
    PutAll(before, Plan(FilesToWrite(m, ChangedNames(d)), d.download.Keys, store)) - d.removed
  }

  lemma {:induction false} FilesToWriteMembers(m: Manifest, names: set<string>, f: File)
    ensures f in FilesToWrite(m, names) <==> f in m && f.name in names
    decreases |m|
  {
    if m != [] {
      var front, last := m[..|m| - 1], m[|m| - 1];
      assert m == front + [last];
      FilesToWriteMembers(front, names, f);
    }
  }

  lemma {:induction false} FilesToWriteDistinct(m: Manifest, names: set<string>)
    requires DistinctNames(m)
    ensures DistinctNames(FilesToWrite(m, names))
    decreases |m|
  {
    if m != [] {
      var front, last := m[..|m| - 1], m[|m| - 1];
      FilesToWriteDistinct(front, names);
      var w := FilesToWrite(front, names);
      forall i | 0 <= i < |w| ensures w[i].name != last.name {
        FilesToWriteMembers(front, names, w[i]);
        var k :| 0 <= k < |front| && front[k] == w[i];
        assert m[k].name != m[|m| - 1].name;
      }
    }
  }

  lemma ChangedNamesAre(prior: Manifest, m: Manifest, d: Diff, f: File)
    requires IsDiff(prior, m, d) && DistinctNames(m) && f in m
    ensures f.name in ChangedNames(d) <==> NeedsWriting(prior, f)
  {
    WithStatusMembers(prior, m, Added, f.name);
    WithStatusMembers(prior, m, Changed, f.name);
    forall g | g in m && g.name == f.name ensures g == f {
      SameNameSameFile(m, f, g);
    }
  }

  lemma WrittenFilesAreSound(prior: Manifest, m: Manifest, d: Diff, store: Store)
    requires SoundManifest(m, store)
    ensures SoundManifest(FilesToWrite(m, ChangedNames(d)), store)
  {
    var ws := FilesToWrite(m, ChangedNames(d));
    FilesToWriteDistinct(m, ChangedNames(d));
    forall f | f in ws ensures f in m {
      FilesToWriteMembers(m, ChangedNames(d), f);
    }
  }

  /** Files with equal hashes are installed alike. */
  ghost predicate HonestHashes(prior: Manifest, m: Manifest, store: Store) {
    forall f, g :: f in m && g in prior && f.name == g.name && f.sha == g.sha ==>
      (Present(f) <==> Present(g)) && (Present(f) ==> forall b :: Placed(b, g, store) ==> Placed(b, f, store))
  }

  /**
   What a directory must have before a delta update, file by file: bytes ready for the
   downloaded chunks, a file that exists or gets a chunk, and nothing left of a file that
   the new manifest turns into a directory or an empty entry.
   */
  ghost predicate ReadyForDelta(before: Dir, prior: Manifest, m: Manifest, d: Diff, store: Store) {
    forall f :: f in m && NeedsWriting(prior, f) ==> ReadyForFile(before, f, d, store)
  }

  ghost predicate ReadyForFile(before: Dir, f: File, d: Diff, store: Store) {
    if Present(f) then
      && (f.name in before || exists c :: c in f.chunks && c.id in d.download)
      && ReadyFor(Read(before, f.name), f, d.download.Keys, store)
    else f.name !in before
  }

  /** The directory agrees with one file of a manifest. */
  ghost predicate Right(dir: Dir, f: File, store: Store) {
    if Present(f) then f.name in dir && Placed(dir[f.name], f, store) else f.name !in dir
  }

  lemma InstallIsFileByFile(dir: Dir, m: Manifest, store: Store)
    requires DistinctNames(m) && forall path :: path in dir ==> path in Names(m)
    ensures IsInstall(dir, m, store) <==> forall f :: f in m ==> Right(dir, f, store)
  {
    forall path | path in dir
      ensures exists f :: f in m && f.name == path
    {
      assert path in Names(m);
    }
    forall f, g | f in m && g in m && f.name == g.name ensures f == g {
      SameNameSameFile(m, f, g);
    }
  }

  /** A file that is written: right afterwards exactly when its old bytes were ready. */
  lemma {:induction false} WrittenPresent(before: Dir, files: seq<File>, ids: set<ChunkId>, removed: set<string>,
                                          store: Store, f: File)
    requires SoundManifest(files, store) && f in files && Present(f) && f.name !in removed
    ensures Right(PutAll(before, Plan(files, ids, store)) - removed, f, store) <==>
            && (f.name in before || exists c :: c in f.chunks && c.id in ids)
            && ReadyFor(Read(before, f.name), f, ids, store)
  {
    PlanPlacesExactly(before, files, ids, store, f);
  }

  /** A directory entry or a file without chunks gets no write. */
  lemma AbsentIsNotWritten(before: Dir, files: seq<File>, ids: set<ChunkId>, store: Store, f: File)
    requires DistinctNames(files) && f in files && !Present(f)
    ensures f.name in PutAll(before, Plan(files, ids, store)) <==> f.name in before
  {
    var plan := Plan(files, ids, store);
    PutAllKeys(before, plan, f.name);
    forall g | g in files && Present(g) ensures g.name != f.name {
      if g.name == f.name {
        SameNameSameFile(files, f, g);
      }
    }
    forall fw | fw in plan ensures fw.path != f.name {
      PlanMembers(files, ids, store, fw);
    }
  }

  lemma {:induction false} WrittenFileIsThere(prior: Manifest, m: Manifest, d: Diff, store: Store, f: File)
    requires IsDiff(prior, m, d) && SoundManifest(m, store) && f in m && NeedsWriting(prior, f)
    ensures
      var files := FilesToWrite(m, ChangedNames(d));
      SoundManifest(files, store) && f in files && f.name !in d.removed
  {
    ChangedNamesAre(prior, m, d, f);
    FilesToWriteMembers(m, ChangedNames(d), f);
    WrittenFilesAreSound(prior, m, d, store);
    assert f.name in Names(m);
  }

  /** A file that needs writing ends up as the new manifest says exactly when it was ready. */
  lemma WrittenFile(before: Dir, prior: Manifest, m: Manifest, d: Diff, store: Store, f: File)
    requires IsDiff(prior, m, d) && SoundManifest(m, store) && f in m && NeedsWriting(prior, f)
    ensures
      Right(DeltaResult(before, m, d, store), f, store) <==> ReadyForFile(before, f, d, store)
  {
    var files, ids := FilesToWrite(m, ChangedNames(d)), d.download.Keys;
    WrittenFileIsThere(prior, m, d, store, f);
    if Present(f) {
      WrittenPresent(before, files, ids, d.removed, store, f);
    } else {
      AbsentIsNotWritten(before, files, ids, store, f);
    }
  }

  lemma EmptyOrMember(ws: seq<Write>)
    ensures ws == [] || exists w :: w in ws
  {
    if ws != [] {
      assert ws[0] in ws;
    }
  }

  /** A name no written file has is as before, unless it is removed. */
  lemma UntouchedName(before: Dir, prior: Manifest, m: Manifest, d: Diff, store: Store, path: string)
    requires IsDiff(prior, m, d) && DistinctNames(m)
    requires forall f :: f in m && f.name == path ==> !NeedsWriting(prior, f)
    ensures
      var after := DeltaResult(before, m, d, store);
      (path in after <==> path in before && path !in d.removed) && (path in after ==> after[path] == before[path])
  {
    var files, ids := FilesToWrite(m, ChangedNames(d)), d.download.Keys;
    var plan := Plan(files, ids, store);
    PutAllKeys(before, plan, path);
    PutAllFile(before, plan, path);
    forall fw | fw in plan ensures fw.path != path {
      PlanMembers(files, ids, store, fw);
      var g, c :| g in files && Present(g) && c in g.chunks && c.id in ids &&
                  fw == FileWrite(g.name, ChunkWrite(c, store));
      FilesToWriteMembers(m, ChangedNames(d), g);
      ChangedNamesAre(prior, m, d, g);
    }
    forall w ensures w !in WritesTo(plan, path) {
      WritesToMembers(plan, path, w);
    }
    EmptyOrMember(WritesTo(plan, path));
  }

  /** An unchanged file keeps its bytes, which are the new manifest's too. */
  lemma UnchangedFile(before: Dir, prior: Manifest, m: Manifest, d: Diff, store: Store, f: File)
    requires IsDiff(prior, m, d) && DistinctNames(prior) && DistinctNames(m) && f in m && !NeedsWriting(prior, f)
    requires IsInstall(before, prior, store) && HonestHashes(prior, m, store)
    ensures
      Right(DeltaResult(before, m, d, store), f, store)
  {
    forall g | g in m && g.name == f.name ensures g == f {
      SameNameSameFile(m, f, g);
    }
    UntouchedName(before, prior, m, d, store, f.name);
    LookupFinds(prior, f.name);
    var g := Lookup(prior, f.name).value;
    assert f.name in Names(m);
    forall h | h in prior && h.name == f.name ensures h == g {
      SameNameSameFile(prior, g, h);
    }
  }

  /** Names the new manifest does not have are gone. */
  lemma DroppedName(before: Dir, prior: Manifest, m: Manifest, d: Diff, store: Store, path: string)
    requires IsDiff(prior, m, d) && DistinctNames(m) && IsInstall(before, prior, store) && path !in Names(m)
    ensures path !in DeltaResult(before, m, d, store)
  {
    UntouchedName(before, prior, m, d, store, path);
    if path in before {
      var g :| g in prior && Present(g) && g.name == path;
      assert path in Names(prior);
    }
  }

  /** A delta update yields the new install exactly when every added or changed file was ready for it. */
  lemma DeltaInstallsExactly(before: Dir, prior: Manifest, m: Manifest, d: Diff, store: Store)
    requires IsDiff(prior, m, d) && SoundManifest(prior, store) && SoundManifest(m, store)
    requires IsInstall(before, prior, store) && HonestHashes(prior, m, store)
    ensures IsInstall(DeltaResult(before, m, d, store), m, store) <==> ReadyForDelta(before, prior, m, d, store)
  {
    var after := DeltaResult(before, m, d, store);
    forall f | f in m
      ensures Right(after, f, store) <==> (NeedsWriting(prior, f) ==> ReadyForFile(before, f, d, store))
    {
      if NeedsWriting(prior, f) {
        WrittenFile(before, prior, m, d, store, f);
      } else {
        UnchangedFile(before, prior, m, d, store, f);
      }
    }
    forall path | path !in Names(m) ensures path !in after {
      DroppedName(before, prior, m, d, store, path);
    }
    InstallIsFileByFile(after, m, store);
  }

  // ----- conditions on the manifests alone -----

  /** Every old chunk that a written file uses sits at the same offset of its old namesake. */
  ghost predicate ReusedInPlace(prior: Manifest, m: Manifest) {
    forall f, c :: f in m && Present(f) && NeedsWriting(prior, f) && c in f.chunks && c.id in ChunkIds(prior) ==>
      exists g :: g in prior && g.name == f.name && Present(g) && HasChunkAt(g, c)
  }

  ghost predicate HasChunkAt(g: File, c: Chunk) {
    exists e :: e in g.chunks && e.id == c.id && e.offset == c.offset
  }

  /** A changed file that existed still exists, and its chunks reach every byte the old one had. */
  ghost predicate KeepsCoverage(prior: Manifest, m: Manifest, store: Store) {
    forall f, g :: f in m && NeedsWriting(prior, f) && g in prior && g.name == f.name && Present(g) ==>
      Present(f) && forall i: nat :: Covered(g, store, i) ==> Covered(f, store, i)
  }

  ghost predicate Gapless(f: File, store: Store) {
    forall n, i: nat :: IsFileLength(f, store, n) && i < n ==> Covered(f, store, i)
  }

  /** For a file without gaps, keeping coverage is not shrinking. */
  lemma GaplessFilesKeepCoverage(f: File, g: File, store: Store, nf: nat, ng: nat)
    requires Gapless(f, store) && Gapless(g, store) && IsFileLength(f, store, nf) && IsFileLength(g, store, ng)
    ensures (forall i: nat :: Covered(g, store, i) ==> Covered(f, store, i)) <==> ng <= nf
  {
    if ng > nf {
      assert Covered(g, store, nf);
      assert !Covered(f, store, nf);
    }
  }

  /** Reused chunks in place and coverage kept: then the delta update yields the new install. */
  lemma InPlaceDeltaInstalls(before: Dir, prior: Manifest, m: Manifest, d: Diff, store: Store)
    requires IsDiff(prior, m, d) && SoundManifest(prior, store) && SoundManifest(m, store)
    requires IsInstall(before, prior, store) && HonestHashes(prior, m, store)
    requires ReusedInPlace(prior, m) && KeepsCoverage(prior, m, store)
    ensures IsInstall(DeltaResult(before, m, d, store), m, store)
  {
    forall f | f in m && NeedsWriting(prior, f)
      ensures ReadyForFile(before, f, d, store)
    {
      if f.name in before {
        InPlaceChangedIsReady(before, prior, m, d, store, f);
      } else if Present(f) {
        InPlaceAddedIsReady(before, prior, m, d, store, f);
      }
    }
    DeltaInstallsExactly(before, prior, m, d, store);
  }

  lemma InPlaceChangedIsReady(before: Dir, prior: Manifest, m: Manifest, d: Diff, store: Store, f: File)
    requires IsDiff(prior, m, d) && DistinctNames(prior) && IsInstall(before, prior, store)
    requires ReusedInPlace(prior, m) && KeepsCoverage(prior, m, store)
    requires f in m && NeedsWriting(prior, f) && f.name in before
    ensures Present(f) && ReadyFor(before[f.name], f, d.download.Keys, store)
  {
    var g :| g in prior && Present(g) && g.name == f.name;
    assert Placed(before[f.name], g, store);
    assert Present(f) && forall i: nat :: Covered(g, store, i) ==> Covered(f, store, i);
    ReusedChunksAreThere(prior, m, d, f, g);
    ChangedIsReady(before[f.name], f, g, d.download.Keys, store);
  }

  lemma ReusedChunksAreThere(prior: Manifest, m: Manifest, d: Diff, f: File, g: File)
    requires IsDiff(prior, m, d) && DistinctNames(prior) && ReusedInPlace(prior, m)
    requires f in m && Present(f) && NeedsWriting(prior, f) && g in prior && g.name == f.name
    ensures forall c :: c in f.chunks && c.id !in d.download ==> HasChunkAt(g, c)
  {
    forall c | c in f.chunks && c.id !in d.download
      ensures HasChunkAt(g, c)
    {
      ReusedChunkIsThere(prior, m, d, f, g, c);
    }
  }

  lemma ReusedChunkIsThere(prior: Manifest, m: Manifest, d: Diff, f: File, g: File, c: Chunk)
    requires IsDiff(prior, m, d) && DistinctNames(prior) && ReusedInPlace(prior, m)
    requires f in m && Present(f) && NeedsWriting(prior, f) && g in prior && g.name == f.name
    requires c in f.chunks && c.id !in d.download
    ensures HasChunkAt(g, c)
  {
    assert c.id in ChunkIds(prior) by {
      if c.id !in ChunkIds(prior) {
        assert NewChunk(prior, m, c);
      }
    }
    var h :| h in prior && h.name == f.name && Present(h) && HasChunkAt(h, c);
    LookupIs(prior, g);
    LookupIs(prior, h);
  }

  lemma InPlaceAddedIsReady(before: Dir, prior: Manifest, m: Manifest, d: Diff, store: Store, f: File)
    requires IsDiff(prior, m, d) && IsInstall(before, prior, store) && ReusedInPlace(prior, m)
    requires f in m && Present(f) && NeedsWriting(prior, f) && f.name !in before
    ensures ReadyFor([], f, d.download.Keys, store) && exists c :: c in f.chunks && c.id in d.download
  {
    AddedChunksAreNew(before, prior, m, d, store, f);
    assert f.chunks[0] in f.chunks;
  }

  lemma AddedChunksAreNew(before: Dir, prior: Manifest, m: Manifest, d: Diff, store: Store, f: File)
    requires IsDiff(prior, m, d) && IsInstall(before, prior, store) && ReusedInPlace(prior, m)
    requires f in m && Present(f) && NeedsWriting(prior, f) && f.name !in before
    ensures forall c :: c in f.chunks ==> c.id in d.download
  {
    forall c | c in f.chunks ensures c.id in d.download {
      assert c.id !in ChunkIds(prior);
      assert NewChunk(prior, m, c);
    }
  }

  lemma ChangedIsReady(base: Bytes, f: File, g: File, ids: set<ChunkId>, store: Store)
    requires Placed(base, g, store)
    requires forall c :: c in f.chunks && c.id !in ids ==> HasChunkAt(g, c)
    requires forall i: nat :: Covered(g, store, i) ==> Covered(f, store, i)
    ensures ReadyFor(base, f, ids, store)
  {
    forall c | c in f.chunks && c.id !in ids
      ensures exists e :: e in g.chunks && ChunkWrite(e, store) == ChunkWrite(c, store)
    {
      var e :| e in g.chunks && e.id == c.id && e.offset == c.offset;
      assert ChunkWrite(e, store) == ChunkWrite(c, store);
    }
    if |base| != 0 {
      var e :| e in g.chunks && Content(store, e.id) != [] && ChunkWrite(e, store).End() == |base|;
      var last := |base| - 1;
      assert ChunkWrite(e, store).Covers(last);
      assert Covered(f, store, last);
    }
  }

  // ----- both conditions are needed -----

  /** Reused chunks are not copied: an added file made of old chunks only is never created. */
  lemma AddedFileOfOldChunksIsMissing(before: Dir, prior: Manifest, m: Manifest, d: Diff, store: Store, f: File)
    requires IsDiff(prior, m, d) && SoundManifest(prior, store) && SoundManifest(m, store)
    requires IsInstall(before, prior, store) && HonestHashes(prior, m, store)
    requires f in m && Present(f) && f.name !in Names(prior) && FileIds(f) <= ChunkIds(prior)
    ensures f.name !in DeltaResult(before, m, d, store) && !IsInstall(DeltaResult(before, m, d, store), m, store)
  {
    LookupFinds(prior, f.name);
    forall c | c in f.chunks ensures c.id !in d.download {
      assert c.id in FileIds(f);
    }
    forall g | g in prior ensures g.name != f.name {
      assert g.name in Names(prior);
    }
    var files, ids := FilesToWrite(m, ChangedNames(d)), d.download.Keys;
    ChangedNamesAre(prior, m, d, f);
    FilesToWriteMembers(m, ChangedNames(d), f);
    WrittenFilesAreSound(prior, m, d, store);
    PlanPlacesExactly(before, files, ids, store, f);
  }

  /** Files are not truncated: a changed file keeps at least its old length. */
  lemma ShrunkFileKeepsItsLength(before: Dir, prior: Manifest, m: Manifest, d: Diff, store: Store, f: File, n: nat)
    requires IsDiff(prior, m, d) && SoundManifest(prior, store) && SoundManifest(m, store)
    requires IsInstall(before, prior, store) && HonestHashes(prior, m, store)
    requires f in m && Present(f) && NeedsWriting(prior, f) && f.name in before
    requires IsFileLength(f, store, n) && n < |before[f.name]|
    ensures !IsInstall(DeltaResult(before, m, d, store), m, store)
  {
    DeltaInstallsExactly(before, prior, m, d, store);
    assert !ReadyFor(Read(before, f.name), f, d.download.Keys, store);
    assert !ReadyForFile(before, f, d, store);
  }
}
