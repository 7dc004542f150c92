/** Small delta updates that do not yield the new install. */
module DeltaExamples {
  import opened Common
  import opened FileWrites
  import opened Manifests
  import opened Install
  import opened Delta

  function OneFile(name: string, sha: byte, c: Chunk): Manifest {
    [File(name, false, [sha], [c])]
  }

  lemma OneFileParts(name: string, sha: byte, c: Chunk)
    ensures Names(OneFile(name, sha, c)) == {name}
    ensures ChunkIds(OneFile(name, sha, c)) == {c.id} && FileIds(OneFile(name, sha, c)[0]) == {c.id}
    ensures forall n :: Lookup(OneFile(name, sha, c), n) == if n == name then Some(OneFile(name, sha, c)[0]) else None
  {
    var m := OneFile(name, sha, c);
    assert m[0] in m && c in m[0].chunks && m[..0] == [];
  }

  lemma OneFileInstalls(name: string, sha: byte, c: Chunk, store: Store)
    requires c.offset == 0 && c.id in store && store[c.id] != []
    ensures SoundManifest(OneFile(name, sha, c), store)
    ensures IsInstall(map[name := store[c.id]], OneFile(name, sha, c), store)
    ensures IsFileLength(OneFile(name, sha, c)[0], store, |store[c.id]|)
  {
    var f, data := OneFile(name, sha, c)[0], store[c.id];
    assert forall e :: e in f.chunks <==> e == c;
    assert ChunkWrite(c, store) == Write(0, data) && ChunkWrite(c, store).End() == |data|;
    forall i | 0 <= i < |data| ensures Covered(f, store, i) {
      assert ChunkWrite(c, store).Covers(i);
    }
    assert f in OneFile(name, sha, c) && Present(f);
  }

  lemma ChangedDiff(name: string, before: byte, after: byte, dropped: Chunk, c: Chunk)
    requires before != after && dropped.id != c.id
    ensures NeedsWriting(OneFile(name, before, dropped), OneFile(name, after, c)[0])
    ensures IsDiff(OneFile(name, before, dropped), OneFile(name, after, c), Diff(map[c.id := c], {}, [name], [], 0))
  {
    var prior, m := OneFile(name, before, dropped), OneFile(name, after, c);
    OneFileParts(name, before, dropped);
    OneFileParts(name, after, c);
    assert m[0].sha[0] != prior[0].sha[0];
    assert m[0] in m && c in m[0].chunks;
  }

  /** One file that shrinks: what the old one had beyond the new end stays. */
  lemma ShrinkingExample(name: string, before: byte, after: byte, dropped: Chunk, c: Chunk, store: Store)
    requires before != after && dropped.id != c.id && dropped.offset == c.offset == 0
    requires dropped.id in store && c.id in store && 0 < |store[c.id]| < |store[dropped.id]|
    ensures
      var prior, m := OneFile(name, before, dropped), OneFile(name, after, c);
      var dir, d := map[name := store[dropped.id]], Diff(map[c.id := c], {}, [name], [], 0);
      IsInstall(dir, prior, store) && IsDiff(prior, m, d) && !IsInstall(DeltaResult(dir, m, d, store), m, store)
  {
    var prior, m := OneFile(name, before, dropped), OneFile(name, after, c);
    var dir, d := map[name := store[dropped.id]], Diff(map[c.id := c], {}, [name], [], 0);
    OneFileInstalls(name, before, dropped, store);
    OneFileInstalls(name, after, c, store);
    ChangedDiff(name, before, after, dropped, c);
    assert m[0].sha[0] != prior[0].sha[0];
    assert HonestHashes(prior, m, store);
    ShrunkFileKeepsItsLength(dir, prior, m, d, store, m[0], |store[c.id]|);
  }

  lemma RenamedDiff(from: string, to: string, sha: byte, c: Chunk)
    requires from != to
    ensures IsDiff(OneFile(from, sha, c), OneFile(to, sha, c), Diff(map[], {from}, [], [to], 0))
  {
    OneFileParts(from, sha, c);
    OneFileParts(to, sha, c);
  }

  /** One file that is renamed: it is removed under its old name and never created under the new one. */
  lemma RenamingExample(from: string, to: string, sha: byte, c: Chunk, store: Store)
    requires from != to && c.offset == 0 && c.id in store && store[c.id] != []
    ensures
      var prior, m := OneFile(from, sha, c), OneFile(to, sha, c);
      var dir, d := map[from := store[c.id]], Diff(map[], {from}, [], [to], 0);
      IsInstall(dir, prior, store) && IsDiff(prior, m, d) && to !in DeltaResult(dir, m, d, store) &&
      !IsInstall(DeltaResult(dir, m, d, store), m, store)
  {
    var prior, m := OneFile(from, sha, c), OneFile(to, sha, c);
    OneFileInstalls(from, sha, c, store);
    OneFileInstalls(to, sha, c, store);
    RenamedDiff(from, to, sha, c);
    OneFileParts(from, sha, c);
    OneFileParts(to, sha, c);
    assert HonestHashes(prior, m, store);
    AddedFileOfOldChunksIsMissing(map[from := store[c.id]], prior, m, Diff(map[], {from}, [], [to], 0), store, m[0]);
  }
}
