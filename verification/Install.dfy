/** What an installed depot is, and what patching a directory with chunk writes gives. */
module Install {
  import opened Common
  import opened FileWrites
  import opened Manifests

  /** The regular files under the destination directory. */
  type Dir = map<string, Bytes>

  /** Chunk contents as they come out of download, decryption and decompression. */
  type Store = map<ChunkId, Bytes>

  datatype FileWrite = FileWrite(path: string, write: Write)

  function Content(store: Store, id: ChunkId): Bytes {
    if id in store then store[id] else []
  }

  function ChunkWrite(c: Chunk, store: Store): Write {
    Write(c.offset, Content(store, c.id))
  }

  function Read(dir: Dir, path: string): Bytes {
    if path in dir then dir[path] else []
  }

  /** Opening creates the file; writing nothing does not extend it. */
  function Put(dir: Dir, fw: FileWrite): Dir {
    dir[fw.path := if fw.write.data == [] then Read(dir, fw.path) else Overlay(Read(dir, fw.path), fw.write)]
  }

  function PutAll(dir: Dir, fws: seq<FileWrite>): Dir
    decreases |fws|
  {
    if fws == [] then dir else Put(PutAll(dir, fws[..|fws| - 1]), fws[|fws| - 1])
  }

  lemma PutAllAppend(dir: Dir, fws: seq<FileWrite>, fw: FileWrite)
    ensures PutAll(dir, fws + [fw]) == Put(PutAll(dir, fws), fw)
  {
    assert (fws + [fw])[..|fws|] == fws;
  }

  /** The writes that change the bytes of one file. */
  function WritesTo(fws: seq<FileWrite>, path: string): seq<Write>
    decreases |fws|
  {
    if fws == [] then []
    else
      var last := fws[|fws| - 1];
      WritesTo(fws[..|fws| - 1], path) + if last.path == path && last.write.data != [] then [last.write] else []
  }

  lemma {:induction false} WritesToMembers(fws: seq<FileWrite>, path: string, w: Write)
    ensures w in WritesTo(fws, path) <==> w.data != [] && FileWrite(path, w) in fws
    decreases |fws|
  {
    if fws != [] {
      var front, last := fws[..|fws| - 1], fws[|fws| - 1];
      assert fws == front + [last];
      WritesToMembers(front, path, w);
    }
  }

  /** File by file, a series of writes is a replay. */
  lemma {:induction false} PutAllFile(dir: Dir, fws: seq<FileWrite>, path: string)
    ensures Read(PutAll(dir, fws), path) == Replay(Read(dir, path), WritesTo(fws, path))
    decreases |fws|
  {
    if fws != [] {
      var front, last := fws[..|fws| - 1], fws[|fws| - 1];
      PutAllFile(dir, front, path);
      if last.path == path && last.write.data != [] {
        ReplayAppend(Read(dir, path), WritesTo(front, path), last.write);
      } else {
        assert WritesTo(fws, path) == WritesTo(front, path);
      }
    }
  }

  lemma {:induction false} PutAllKeys(dir: Dir, fws: seq<FileWrite>, path: string)
    ensures path in PutAll(dir, fws) <==> path in dir || exists fw :: fw in fws && fw.path == path
    decreases |fws|
  {
    if fws != [] {
      var front, last := fws[..|fws| - 1], fws[|fws| - 1];
      assert fws == front + [last];
      PutAllKeys(dir, front, path);
    }
  }

  /** Every file's writes agree wherever they meet. */
  ghost predicate CompatiblePlan(fws: seq<FileWrite>) {
    forall path :: Compatible(WritesTo(fws, path))
  }

  /** The order of compatible writes, and repeating them, does not matter to the directory. */
  lemma {:induction false} PlanOrderIsImmaterial(dir: Dir, a: seq<FileWrite>, b: seq<FileWrite>)
    requires CompatiblePlan(a) && (forall fw :: fw in a <==> fw in b)
    ensures PutAll(dir, a) == PutAll(dir, b)
  {
    var x, y := PutAll(dir, a), PutAll(dir, b);
    forall path
      ensures path in x <==> path in y
      ensures Read(x, path) == Read(y, path)
    {
      PutAllFile(dir, a, path);
      PutAllFile(dir, b, path);
      PutAllKeys(dir, a, path);
      PutAllKeys(dir, b, path);
      forall w ensures w in WritesTo(a, path) <==> w in WritesTo(b, path) {
        WritesToMembers(a, path, w);
        WritesToMembers(b, path, w);
      }
      OrderIsImmaterial(Read(dir, path), WritesTo(a, path), WritesTo(b, path));
    }
    assert forall path :: path in x ==> x[path] == Read(x, path) && y[path] == Read(y, path);
  }

  // ----- an installed depot -----

  /** A file that an install contains: directories and files without chunks are not created. */
  predicate Present(f: File) {
    !f.directory && f.chunks != []
  }

  ghost predicate Covered(f: File, store: Store, i: nat) {
    exists c :: c in f.chunks && ChunkWrite(c, store).Covers(i)
  }

  /** `n` is where the file's last byte ends. */
  ghost predicate IsFileLength(f: File, store: Store, n: nat) {
    && (forall c :: c in f.chunks && Content(store, c.id) != [] ==> ChunkWrite(c, store).End() <= n)
    && (n == 0 || exists c :: c in f.chunks && Content(store, c.id) != [] && ChunkWrite(c, store).End() == n)
  }

  /** The bytes are the file's chunks at their offsets, with zeros between them. */
  ghost predicate Placed(bytes: Bytes, f: File, store: Store) {
    && IsFileLength(f, store, |bytes|)
    && (forall c, i: nat :: c in f.chunks && ChunkWrite(c, store).Covers(i) ==>
          i < |bytes| && bytes[i] == ChunkWrite(c, store).At(i))
    && (forall i :: 0 <= i < |bytes| && !Covered(f, store, i) ==> bytes[i] == 0)
  }

  ghost predicate IsInstall(dir: Dir, m: Manifest, store: Store) {
    && (forall path :: path in dir <==> exists f :: f in m && Present(f) && f.name == path)
    && (forall f :: f in m && Present(f) ==> f.name in dir && Placed(dir[f.name], f, store))
  }

  /** Chunks of one file that share a position agree on it. */
  ghost predicate SoundFile(f: File, store: Store) {
    forall c, d, i: nat ::
      c in f.chunks && d in f.chunks && ChunkWrite(c, store).Covers(i) && ChunkWrite(d, store).Covers(i) ==>
        ChunkWrite(c, store).At(i) == ChunkWrite(d, store).At(i)
  }

  ghost predicate SoundManifest(m: Manifest, store: Store) {
    DistinctNames(m) && forall f :: f in m && Present(f) ==> SoundFile(f, store)
  }

  lemma PlacedIsUnique(a: Bytes, b: Bytes, f: File, store: Store)
    requires Placed(a, f, store) && Placed(b, f, store)
    ensures a == b
  {
    forall i | 0 <= i < |a| && i < |b|
      ensures a[i] == b[i]
    {
      if Covered(f, store, i) {
        var c :| c in f.chunks && ChunkWrite(c, store).Covers(i);
      }
    }
  }

  /** A manifest and its chunk contents determine the installed files. */
  lemma InstallIsUnique(a: Dir, b: Dir, m: Manifest, store: Store)
    requires IsInstall(a, m, store) && IsInstall(b, m, store)
    ensures a == b
  {
    forall path | path in a
      ensures path in b && a[path] == b[path]
    {
      var f :| f in m && Present(f) && f.name == path;
      PlacedIsUnique(a[path], b[path], f, store);
    }
  }

  /** Files with chunks are installed, and nothing else is. */
  lemma InstalledNames(dir: Dir, m: Manifest, store: Store, path: string)
    requires IsInstall(dir, m, store)
    ensures path in dir <==> exists f :: f in m && f.name == path && !f.directory && |f.chunks| > 0
  {
  }

  /** Every byte of a chunk's data is at its place from the chunk's offset on. */
  lemma InstalledByte(dir: Dir, m: Manifest, store: Store, f: File, c: Chunk, i: nat)
    requires IsInstall(dir, m, store) && f in m && !f.directory && c in f.chunks
    requires c.id in store && i < |store[c.id]|
    ensures f.name in dir && c.offset + i < |dir[f.name]| && dir[f.name][c.offset + i] == store[c.id][i]
  {
    assert ChunkWrite(c, store).Covers(c.offset + i);
  }

  // ----- the writes a download makes -----

  ghost predicate InPlan(files: seq<File>, ids: set<ChunkId>, store: Store, fw: FileWrite) {
    exists f, c :: f in files && Present(f) && c in f.chunks && c.id in ids &&
      fw == FileWrite(f.name, ChunkWrite(c, store))
  }

  /** All writes of the chunks in `ids` to the files that use them, file by file. */
  function Plan(files: seq<File>, ids: set<ChunkId>, store: Store): seq<FileWrite>
    decreases |files|
  {
    if files == [] then []
    else
      var last := files[|files| - 1];
      Plan(files[..|files| - 1], ids, store) +
      if Present(last) then FilePlan(last.name, last.chunks, ids, store) else []
  }

  function FilePlan(name: string, chunks: seq<Chunk>, ids: set<ChunkId>, store: Store): seq<FileWrite>
    decreases |chunks|
  {
    if chunks == [] then []
    else
      var c := chunks[|chunks| - 1];
      FilePlan(name, chunks[..|chunks| - 1], ids, store) +
      if c.id in ids then [FileWrite(name, ChunkWrite(c, store))] else []
  }

  lemma {:induction false} FilePlanMembers(name: string, chunks: seq<Chunk>, ids: set<ChunkId>, store: Store,
                                           fw: FileWrite)
    ensures fw in FilePlan(name, chunks, ids, store) <==>
            exists c :: c in chunks && c.id in ids && fw == FileWrite(name, ChunkWrite(c, store))
    decreases |chunks|
  {
    if chunks != [] {
      var front, c := chunks[..|chunks| - 1], chunks[|chunks| - 1];
      assert chunks == front + [c];
      FilePlanMembers(name, front, ids, store, fw);
    }
  }

  lemma {:induction false} PlanMembers(files: seq<File>, ids: set<ChunkId>, store: Store, fw: FileWrite)
    ensures fw in Plan(files, ids, store) <==> InPlan(files, ids, store, fw)
    decreases |files|
  {
    if files != [] {
      var front, last := files[..|files| - 1], files[|files| - 1];
      assert files == front + [last];
      PlanMembers(front, ids, store, fw);
      FilePlanMembers(last.name, last.chunks, ids, store, fw);
      if InPlan(files, ids, store, fw) {
        var f, c :| f in files && Present(f) && c in f.chunks && c.id in ids &&
                    fw == FileWrite(f.name, ChunkWrite(c, store));
        assert f in front || f == last;
      }
    }
  }

  /** The writes of the plan that reach one file: its own chunks in `ids`. */
  lemma PlanForFile(files: seq<File>, ids: set<ChunkId>, store: Store, f: File, w: Write)
    requires DistinctNames(files) && f in files
    ensures w in WritesTo(Plan(files, ids, store), f.name) <==>
            w.data != [] && Present(f) && exists c :: c in f.chunks && c.id in ids && w == ChunkWrite(c, store)
  {
    WritesToMembers(Plan(files, ids, store), f.name, w);
    PlanMembers(files, ids, store, FileWrite(f.name, w));
    if InPlan(files, ids, store, FileWrite(f.name, w)) {
      var g, c :| g in files && Present(g) && c in g.chunks && c.id in ids &&
                  FileWrite(f.name, w) == FileWrite(g.name, ChunkWrite(c, store));
      SameNameSameFile(files, f, g);
    }
  }

  lemma SameNameSameFile(files: seq<File>, f: File, g: File)
    requires DistinctNames(files) && f in files && g in files && f.name == g.name
    ensures f == g
  {
  }

  lemma SoundPlanIsCompatible(files: seq<File>, ids: set<ChunkId>, store: Store)
    requires SoundManifest(files, store)
    ensures CompatiblePlan(Plan(files, ids, store))
  {
    forall path ensures Compatible(WritesTo(Plan(files, ids, store), path)) {
      forall v, w, i | v in WritesTo(Plan(files, ids, store), path) && w in WritesTo(Plan(files, ids, store), path) &&
                       v.Covers(i) && w.Covers(i)
        ensures v.At(i) == w.At(i)
      {
        WritesToMembers(Plan(files, ids, store), path, v);
        PlanMembers(files, ids, store, FileWrite(path, v));
        var f, c :| f in files && Present(f) && c in f.chunks && c.id in ids &&
                    FileWrite(path, v) == FileWrite(f.name, ChunkWrite(c, store));
        PlanForFile(files, ids, store, f, w);
        assert c in f.chunks && ChunkWrite(c, store).Covers(i);
      }
    }
  }

  // ----- patching one file -----

  /** Some chunk in `ids` is written over position `i` of the file. */
  ghost predicate Rewritten(f: File, ids: set<ChunkId>, store: Store, i: nat) {
    exists c :: c in f.chunks && c.id in ids && ChunkWrite(c, store).Covers(i)
  }

  /** Some chunk in `ids` makes the file at least `n` bytes long. */
  ghost predicate WrittenUpTo(f: File, ids: set<ChunkId>, store: Store, n: nat) {
    exists c :: c in f.chunks && c.id in ids && Content(store, c.id) != [] && n <= ChunkWrite(c, store).End()
  }

  /**
   What the old bytes of a file must have when only the chunks in `ids` are written: the
   other chunks where they belong, no byte past the file's end, zeros between the chunks.
   */
  ghost predicate ReadyFor(base: Bytes, f: File, ids: set<ChunkId>, store: Store) {
    && (forall c, i: nat :: c in f.chunks && ChunkWrite(c, store).Covers(i) && !Rewritten(f, ids, store, i) ==>
          ChunkWrite(c, store).At(i) == if i < |base| then base[i] else 0)
    && (forall c :: c in f.chunks && c.id !in ids && Content(store, c.id) != [] ==>
          ChunkWrite(c, store).End() <= |base| || WrittenUpTo(f, ids, store, ChunkWrite(c, store).End()))
    && (|base| == 0 || exists c :: c in f.chunks && Content(store, c.id) != [] && |base| <= ChunkWrite(c, store).End())
    && (forall i :: 0 <= i < |base| && !Covered(f, store, i) ==> base[i] == 0)
  }

  ghost predicate WritesOf(ws: seq<Write>, f: File, ids: set<ChunkId>, store: Store) {
    forall w :: w in ws <==> w.data != [] && exists c :: c in f.chunks && c.id in ids && w == ChunkWrite(c, store)
  }

  /** Patched bytes: rewritten positions have their chunk's byte, the others are as before. */
  lemma {:induction false} PatchBytes(base: Bytes, ws: seq<Write>, f: File, ids: set<ChunkId>, store: Store, i: nat)
    requires WritesOf(ws, f, ids, store) && SoundFile(f, store)
    ensures forall c :: c in f.chunks && ChunkWrite(c, store).Covers(i) && Rewritten(f, ids, store, i) ==>
              i < |Replay(base, ws)| && Replay(base, ws)[i] == ChunkWrite(c, store).At(i)
    ensures !Rewritten(f, ids, store, i) && i < |Replay(base, ws)| ==>
              Replay(base, ws)[i] == if i < |base| then base[i] else 0
    ensures |base| <= |Replay(base, ws)|
  {
    ReplayIsLastWriterWins(base, ws);
    if Rewritten(f, ids, store, i) {
      var d :| d in f.chunks && d.id in ids && ChunkWrite(d, store).Covers(i);
      assert ChunkWrite(d, store) in ws;
      assert Compatible(ws);
      CompatibleContent(base, ws, ChunkWrite(d, store), i);
    } else {
      forall k | 0 <= k < |ws| ensures !ws[k].Covers(i) {
        assert ws[k] in ws;
      }
    }
  }

  lemma {:induction false} PatchLength(base: Bytes, ws: seq<Write>, f: File, ids: set<ChunkId>, store: Store)
    requires WritesOf(ws, f, ids, store) && SoundFile(f, store) && ReadyFor(base, f, ids, store)
    ensures IsFileLength(f, store, |Replay(base, ws)|)
  {
    var n := |Replay(base, ws)|;
    ReplayIsLastWriterWins(base, ws);
    forall c | c in f.chunks && Content(store, c.id) != []
      ensures ChunkWrite(c, store).End() <= n
    {
      if c.id in ids {
        assert ChunkWrite(c, store) in ws;
      } else if ChunkWrite(c, store).End() > |base| {
        var d :| d in f.chunks && d.id in ids && Content(store, d.id) != [] &&
                 ChunkWrite(c, store).End() <= ChunkWrite(d, store).End();
        assert ChunkWrite(d, store) in ws;
      }
    }
    if n > 0 {
      PatchLengthReached(base, ws, f, ids, store);
    }
  }

  lemma PatchLengthReached(base: Bytes, ws: seq<Write>, f: File, ids: set<ChunkId>, store: Store)
    requires WritesOf(ws, f, ids, store) && Replay(base, ws) != []
    requires |base| == 0 ||
             exists c :: c in f.chunks && Content(store, c.id) != [] && |base| <= ChunkWrite(c, store).End()
    requires forall c :: c in f.chunks && Content(store, c.id) != [] ==>
               ChunkWrite(c, store).End() <= |Replay(base, ws)|
    ensures exists c :: c in f.chunks && Content(store, c.id) != [] && ChunkWrite(c, store).End() == |Replay(base, ws)|
  {
    var n := |Replay(base, ws)|;
    ReplayIsLastWriterWins(base, ws);
    if n == |base| {
      var c :| c in f.chunks && Content(store, c.id) != [] && n <= ChunkWrite(c, store).End();
      assert ChunkWrite(c, store).End() == n;
    } else {
      var k :| 0 <= k < |ws| && ws[k].End() == n;
      assert ws[k] in ws;
    }
  }

  lemma {:induction false} ReadyByte(base: Bytes, ws: seq<Write>, f: File, ids: set<ChunkId>, store: Store,
                                     c: Chunk, i: nat)
    requires WritesOf(ws, f, ids, store) && SoundFile(f, store) && ReadyFor(base, f, ids, store)
    requires c in f.chunks && ChunkWrite(c, store).Covers(i) && i < |Replay(base, ws)|
    ensures Replay(base, ws)[i] == ChunkWrite(c, store).At(i)
  {
    PatchBytes(base, ws, f, ids, store, i);
    if !Rewritten(f, ids, store, i) {
      ReadyAt(base, f, ids, store, c, i);
    }
  }

  lemma ReadyAt(base: Bytes, f: File, ids: set<ChunkId>, store: Store, c: Chunk, i: nat)
    requires ReadyFor(base, f, ids, store) && c in f.chunks
    requires ChunkWrite(c, store).Covers(i) && !Rewritten(f, ids, store, i)
    ensures ChunkWrite(c, store).At(i) == if i < |base| then base[i] else 0
  {
  }

  lemma {:induction false} ReadyGap(base: Bytes, ws: seq<Write>, f: File, ids: set<ChunkId>, store: Store, i: nat)
    requires WritesOf(ws, f, ids, store) && SoundFile(f, store) && ReadyFor(base, f, ids, store)
    requires i < |Replay(base, ws)| && !Covered(f, store, i)
    ensures Replay(base, ws)[i] == 0
  {
    PatchBytes(base, ws, f, ids, store, i);
    assert !Rewritten(f, ids, store, i);
  }

  lemma ReadyIsPlaced(base: Bytes, ws: seq<Write>, f: File, ids: set<ChunkId>, store: Store)
    requires WritesOf(ws, f, ids, store) && SoundFile(f, store) && ReadyFor(base, f, ids, store)
    ensures Placed(Replay(base, ws), f, store)
  {
    var r := Replay(base, ws);
    PatchLength(base, ws, f, ids, store);
    forall c, i: nat | c in f.chunks && ChunkWrite(c, store).Covers(i)
      ensures i < |r| && r[i] == ChunkWrite(c, store).At(i)
    {
      ReadyByte(base, ws, f, ids, store, c, i);
    }
    forall i | 0 <= i < |r| && !Covered(f, store, i)
      ensures r[i] == 0
    {
      ReadyGap(base, ws, f, ids, store, i);
    }
  }

  lemma {:induction false} PlacedWasReady(base: Bytes, ws: seq<Write>, f: File, ids: set<ChunkId>, store: Store)
    requires WritesOf(ws, f, ids, store) && SoundFile(f, store) && Placed(Replay(base, ws), f, store)
    ensures ReadyFor(base, f, ids, store)
  {
    var r := Replay(base, ws);
    ReplayIsLastWriterWins(base, ws);
    forall c, i: nat | c in f.chunks && ChunkWrite(c, store).Covers(i) && !Rewritten(f, ids, store, i)
      ensures ChunkWrite(c, store).At(i) == if i < |base| then base[i] else 0
    {
      PatchBytes(base, ws, f, ids, store, i);
    }
    forall c | c in f.chunks && c.id !in ids && Content(store, c.id) != [] && ChunkWrite(c, store).End() > |base|
      ensures WrittenUpTo(f, ids, store, ChunkWrite(c, store).End())
    {
      var k :| 0 <= k < |ws| && ws[k].End() == |r|;
      assert ws[k] in ws;
    }
    if |base| != 0 {
      var c :| c in f.chunks && Content(store, c.id) != [] && ChunkWrite(c, store).End() == |r|;
    }
    forall i | 0 <= i < |base| && !Covered(f, store, i)
      ensures base[i] == 0
    {
      PatchBytes(base, ws, f, ids, store, i);
      assert !Rewritten(f, ids, store, i);
    }
  }

  /** Writing the chunks in `ids` completes a file exactly when its old bytes are ready for it. */
  lemma {:induction false} PatchPlacesExactly(base: Bytes, ws: seq<Write>, f: File, ids: set<ChunkId>, store: Store)
    requires WritesOf(ws, f, ids, store) && SoundFile(f, store)
    ensures Placed(Replay(base, ws), f, store) <==> ReadyFor(base, f, ids, store)
  {
    if ReadyFor(base, f, ids, store) {
      ReadyIsPlaced(base, ws, f, ids, store);
    }
    if Placed(Replay(base, ws), f, store) {
      PlacedWasReady(base, ws, f, ids, store);
    }
  }

  // ----- full download -----

  /** One file of a plan: placed exactly when the bytes it starts from are ready. */
  lemma {:induction false} PlanPlacesExactly(dir: Dir, files: seq<File>, ids: set<ChunkId>, store: Store, f: File)
    requires SoundManifest(files, store) && f in files && Present(f)
    ensures Placed(Read(PutAll(dir, Plan(files, ids, store)), f.name), f, store) <==>
            ReadyFor(Read(dir, f.name), f, ids, store)
    ensures f.name in PutAll(dir, Plan(files, ids, store)) <==>
            f.name in dir || exists c :: c in f.chunks && c.id in ids
  {
    var plan := Plan(files, ids, store);
    PutAllFile(dir, plan, f.name);
    PutAllKeys(dir, plan, f.name);
    forall w ensures w in WritesTo(plan, f.name) <==>
                     w.data != [] && exists c :: c in f.chunks && c.id in ids && w == ChunkWrite(c, store) {
      PlanForFile(files, ids, store, f, w);
    }
    PatchPlacesExactly(Read(dir, f.name), WritesTo(plan, f.name), f, ids, store);
    if c :| c in f.chunks && c.id in ids {
      PlanMembers(files, ids, store, FileWrite(f.name, ChunkWrite(c, store)));
    }
    if fw :| fw in plan && fw.path == f.name {
      PlanMembers(files, ids, store, fw);
      var g, c :| g in files && Present(g) && c in g.chunks && c.id in ids &&
                  fw == FileWrite(g.name, ChunkWrite(c, store));
      SameNameSameFile(files, f, g);
    }
  }

  /** Some of a manifest's chunks in an empty directory install it exactly if the rest makes no difference. */
  lemma PartialDownloadInstallsExactly(m: Manifest, ids: set<ChunkId>, store: Store)
    requires SoundManifest(m, store)
    ensures IsInstall(PutAll(map[], Plan(m, ids, store)), m, store) <==>
            forall f :: f in m && Present(f) ==>
              (exists c :: c in f.chunks && c.id in ids) && ReadyFor([], f, ids, store)
  {
    var plan := Plan(m, ids, store);
    var dir := PutAll(map[], plan);
    forall f | f in m && Present(f)
      ensures (f.name in dir && Placed(dir[f.name], f, store)) <==>
              (exists c :: c in f.chunks && c.id in ids) && ReadyFor([], f, ids, store)
    {
      PlanPlacesExactly(map[], m, ids, store, f);
    }
    forall path | path in dir
      ensures exists f :: f in m && Present(f) && f.name == path
    {
      PutAllKeys(map[], plan, path);
      var fw :| fw in plan && fw.path == path;
      PlanMembers(m, ids, store, fw);
    }
  }

  /** Writing every chunk of a manifest into an empty directory installs it. */
  lemma FullDownloadInstalls(m: Manifest, store: Store)
    requires SoundManifest(m, store)
    ensures IsInstall(PutAll(map[], Plan(m, ChunkIds(m), store)), m, store)
  {
    forall f | f in m && Present(f)
      ensures (exists c :: c in f.chunks && c.id in ChunkIds(m)) && ReadyFor([], f, ChunkIds(m), store)
    {
      assert f.chunks[0] in f.chunks;
    }
    PartialDownloadInstallsExactly(m, ChunkIds(m), store);
  }
}
