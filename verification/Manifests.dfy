/** Depot manifests and the difference between two of them. */
module Manifests {
  import opened Common

  type ChunkId = string

  datatype Chunk = Chunk(id: ChunkId, checksum: nat, offset: nat, size: nat)

  datatype File = File(name: string, directory: bool, sha: Bytes, chunks: seq<Chunk>)

  type Manifest = seq<File>

  function Names(m: Manifest): set<string> {
    set f | f in m :: f.name
  }

  function FileIds(f: File): set<ChunkId> {
    set c | c in f.chunks :: c.id
  }

  function ChunkIds(m: Manifest): set<ChunkId> {
    set f, c | f in m && c in f.chunks :: c.id
  }

  ghost predicate DistinctNames(m: Manifest) {
    forall i, j :: 0 <= i < j < |m| ==> m[i].name != m[j].name
  }

  /** The file a name stands for; a later entry shadows an earlier one. */
  function Lookup(m: Manifest, name: string): Option<File>
    decreases |m|
  {
    if m == [] then None
    else if m[|m| - 1].name == name then Some(m[|m| - 1])
    else Lookup(m[..|m| - 1], name)
  }

  lemma {:induction false} LookupFinds(m: Manifest, name: string)
    ensures Lookup(m, name).Some? <==> name in Names(m)
    ensures Lookup(m, name).Some? ==> Lookup(m, name).value in m && Lookup(m, name).value.name == name
    decreases |m|
  {
    if m != [] {
      var front, last := m[..|m| - 1], m[|m| - 1];
      assert m == front + [last];
      LookupFinds(front, name);
    }
  }

  // ----- how a file of the new manifest relates to the old one -----

  datatype Status = Added | Changed | Unchanged

  function StatusOf(prior: Manifest, f: File): Status {
    match Lookup(prior, f.name)
    case None => Added
    case Some(g) => if f.sha != g.sha then Changed else Unchanged
  }

  /** Names of the files with a status, in manifest order. */
  function WithStatus(prior: Manifest, m: Manifest, s: Status): seq<string>
    decreases |m|
  {
    if m == [] then []
    else
      var last := m[|m| - 1];
      WithStatus(prior, m[..|m| - 1], s) + if StatusOf(prior, last) == s then [last.name] else []
  }

  ghost predicate NeedsWriting(prior: Manifest, f: File) {
    StatusOf(prior, f) != Unchanged
  }

  /** A chunk of an added or changed file that the old manifest does not have. */
  ghost predicate NewChunk(prior: Manifest, m: Manifest, c: Chunk) {
    c.id !in ChunkIds(prior) && exists f :: f in m && NeedsWriting(prior, f) && c in f.chunks
  }

  datatype Diff = Diff(
    download: map<ChunkId, Chunk>, removed: set<string>, changed: seq<string>, added: seq<string>, same: nat)

  ghost predicate IsDiff(prior: Manifest, m: Manifest, d: Diff) {
    && d.added == WithStatus(prior, m, Added)
    && d.changed == WithStatus(prior, m, Changed)
    && d.same == |WithStatus(prior, m, Unchanged)|
    && d.removed == Names(prior) - Names(m)
    && (forall id :: id in d.download ==> d.download[id].id == id && NewChunk(prior, m, d.download[id]))
    && (forall c :: NewChunk(prior, m, c) ==> c.id in d.download)
  }

  lemma {:induction false} WithStatusMembers(prior: Manifest, m: Manifest, s: Status, name: string)
    ensures name in WithStatus(prior, m, s) <==> exists f :: f in m && f.name == name && StatusOf(prior, f) == s
    decreases |m|
  {
    if m != [] {
      var front, last := m[..|m| - 1], m[|m| - 1];
      assert m == front + [last];
      WithStatusMembers(prior, front, s, name);
    }
  }

  lemma {:induction false} WithStatusCounts(prior: Manifest, m: Manifest)
    ensures |WithStatus(prior, m, Added)| + |WithStatus(prior, m, Changed)| + |WithStatus(prior, m, Unchanged)| == |m|
    decreases |m|
  {
    if m != [] {
      WithStatusCounts(prior, m[..|m| - 1]);
    }
  }

  /**
   Added, changed, unchanged and removed files split the two manifests: every new file is
   counted once, the three name sets are disjoint, and an old name is removed or still there.
   */
  lemma DiffPartitions(prior: Manifest, m: Manifest, d: Diff)
    requires IsDiff(prior, m, d) && DistinctNames(m)
    ensures |d.added| + |d.changed| + d.same == |m|
    ensures forall n :: n in d.added ==> n in Names(m) && n !in Names(prior) && n !in d.changed && n !in d.removed
    ensures forall n :: n in d.changed ==> n in Names(m) && n in Names(prior) && n !in d.removed
    ensures forall n :: n in Names(prior) <==> n in d.removed || (n in Names(m) && n !in d.added)
  {
    WithStatusCounts(prior, m);
    forall n
      ensures n in d.added <==> n in Names(m) && n !in Names(prior)
      ensures n in d.changed ==> n in Names(m) && n in Names(prior)
    {
      WithStatusMembers(prior, m, Added, n);
      WithStatusMembers(prior, m, Changed, n);
      LookupFinds(prior, n);
    }
  }

  lemma LookupIs(m: Manifest, f: File)
    requires DistinctNames(m) && f in m
    ensures Lookup(m, f.name) == Some(f)
  {
    LookupFinds(m, f.name);
    var g := Lookup(m, f.name).value;
    var i, j :| 0 <= i < |m| && 0 <= j < |m| && m[i] == f && m[j] == g;
    assert i == j;
  }

  /**
   File by file, for manifests without repeated names: added when the name is new, changed when
   the old file of that name has another hash, otherwise neither.
   */
  lemma DiffByHash(prior: Manifest, m: Manifest, d: Diff, f: File)
    requires IsDiff(prior, m, d) && DistinctNames(prior) && DistinctNames(m) && f in m
    ensures f.name in d.added <==> forall g :: g in prior ==> g.name != f.name
    ensures f.name in d.changed <==> exists g :: g in prior && g.name == f.name && g.sha != f.sha
  {
    WithStatusMembers(prior, m, Added, f.name);
    WithStatusMembers(prior, m, Changed, f.name);
    LookupIs(m, f);
    forall e | e in m && e.name == f.name ensures e == f {
      LookupIs(m, e);
    }
    LookupFinds(prior, f.name);
    forall g | g in prior && g.name == f.name ensures Lookup(prior, f.name) == Some(g) {
      LookupIs(prior, g);
    }
  }

  /** What is downloaded: chunks the old manifest lacks, of files it lacks or has with another hash. */
  lemma DownloadedByHash(prior: Manifest, m: Manifest, d: Diff, id: ChunkId)
    requires IsDiff(prior, m, d) && DistinctNames(prior)
    ensures id in d.download <==>
            && (forall g, e :: g in prior && e in g.chunks ==> e.id != id)
            && exists f, c :: f in m && c in f.chunks && c.id == id &&
                 forall g :: g in prior && g.name == f.name ==> g.sha != f.sha
  {
    forall f ensures NeedsWriting(prior, f) <==> forall g :: g in prior && g.name == f.name ==> g.sha != f.sha {
      LookupFinds(prior, f.name);
      forall g | g in prior && g.name == f.name ensures Lookup(prior, f.name) == Some(g) {
        LookupIs(prior, g);
      }
    }
  }

  method DiffManifests(prior: Manifest, m: Manifest) returns (d: Diff)
    ensures IsDiff(prior, m, d)
  {
    var oldFiles, oldChunks := IndexManifest(prior);
    var newNames, added, changed, same := {}, [], [], 0;
    var download: map<ChunkId, Chunk> := map[];
    for i := 0 to |m|
      invariant newNames == Names(m[..i])
      invariant added == WithStatus(prior, m[..i], Added) && changed == WithStatus(prior, m[..i], Changed)
      invariant same == |WithStatus(prior, m[..i], Unchanged)|
      invariant Downloads(prior, m[..i], download)
    {
      var f := m[i];
      Grow(prior, m, i);
      newNames := newNames + {f.name};
      if f.name in oldFiles && f.sha == oldFiles[f.name].sha {
        same := same + 1;
      } else {
        if f.name in oldFiles {
          changed := changed + [f.name];
        } else {
          added := added + [f.name];
        }
        download := CollectChunks(prior, m[..i], f, oldChunks, download);
      }
    }
    assert m[..|m|] == m;
    d := Diff(download, oldFiles.Keys - newNames, changed, added, same);
  }

  lemma Grow(prior: Manifest, m: Manifest, i: nat)
    requires i < |m|
    ensures m[..i + 1] == m[..i] + [m[i]] && Names(m[..i + 1]) == Names(m[..i]) + {m[i].name}
    ensures forall s :: WithStatus(prior, m[..i + 1], s) ==
                        WithStatus(prior, m[..i], s) + if StatusOf(prior, m[i]) == s then [m[i].name] else []
    ensures !NeedsWriting(prior, m[i]) ==>
              forall c :: NewChunk(prior, m[..i + 1], c) ==> NewChunk(prior, m[..i], c)
    ensures forall c :: NewChunk(prior, m[..i], c) ==> NewChunk(prior, m[..i + 1], c)
  {
    assert m[..i + 1][..i] == m[..i] && m[..i + 1][i] == m[i];
    assert m[..i + 1] == m[..i] + [m[i]];
  }

  /** The files of a manifest by name, and the ids of all its chunks. */
  method IndexManifest(m: Manifest) returns (files: map<string, File>, chunks: set<ChunkId>)
    ensures files.Keys == Names(m) && chunks == ChunkIds(m)
    ensures forall n :: Lookup(m, n) == if n in files then Some(files[n]) else None
  {
    files, chunks := map[], {};
    for i := 0 to |m|
      invariant files.Keys == Names(m[..i]) && chunks == ChunkIds(m[..i])
      invariant forall n :: Lookup(m[..i], n) == if n in files then Some(files[n]) else None
    {
      var f := m[i];
      assert m[..i + 1] == m[..i] + [f] && m[..i + 1][..i] == m[..i];
      files := files[f.name := f];
      chunks := chunks + FileIds(f);
    }
    assert m[..|m|] == m;
  }

  ghost predicate Downloads(prior: Manifest, m: Manifest, download: map<ChunkId, Chunk>) {
    && (forall id :: id in download ==> download[id].id == id && NewChunk(prior, m, download[id]))
    && (forall c :: NewChunk(prior, m, c) ==> c.id in download)
  }

  method CollectChunks(ghost prior: Manifest, ghost before: Manifest, f: File, oldChunks: set<ChunkId>,
                       have: map<ChunkId, Chunk>) returns (download: map<ChunkId, Chunk>)
    requires oldChunks == ChunkIds(prior) && NeedsWriting(prior, f) && Downloads(prior, before, have)
    ensures Downloads(prior, before + [f], download)
  {
    download := have;
    for k := 0 to |f.chunks|
      invariant forall id :: id in have ==> id in download
      invariant forall id :: id in download ==>
                  download[id].id == id && NewChunk(prior, before + [f], download[id])
      invariant forall j :: 0 <= j < k ==> f.chunks[j].id in oldChunks || f.chunks[j].id in download
    {
      var c := f.chunks[k];
      if c.id !in oldChunks {
        assert f in before + [f];
        download := download[c.id := c];
      }
    }
  }
}
