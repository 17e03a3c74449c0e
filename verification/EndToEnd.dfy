/** The components joined: what the engine model assumes of its tables is what the table files deliver. */
module EndToEnd {
  import opened Types
  import opened SortedMap
  import opened Levels
  import opened EngineModel
  import opened EngineRuns
  import S = SSTables
  import P = SSTableProof
  import opened Bloom

  /** In every run, every table of the version is a snapshot the file format can carry. */
  lemma {:induction false} EngineTablesAreSnapshots(run: seq<State>, i: nat, l: nat, j: nat)
    requires IsRun(run) && i < |run| && l < |run[i].levels| && j < |run[i].levels[l]|
    requires forall n :: 0 <= n < |run[i].levels[l][j].recs| ==> S.FitsRec(run[i].levels[l][j].recs[n])
    ensures S.Snapshot(run[i].levels[l][j].recs)
  {
    RunInv(run, i);
    assert Shaped(run[i].levels);
    assert AllOk(run[i].levels[l]);
  }

  /** Point reads and iteration of the flushed file are the lookups and runs the engine model uses. */
  lemma {:induction false} FilesServeTheEngine(run: seq<State>, i: nat, l: nat, j: nat, h: Hasher, t: S.SSTable,
                                               bloom: Bytes, k: Bytes)
    requires IsRun(run) && i < |run| && l < |run[i].levels| && j < |run[i].levels[l]|
    requires forall n :: 0 <= n < |run[i].levels[l][j].recs| ==> S.FitsRec(run[i].levels[l][j].recs[n])
    requires S.TableFor(h, t, run[i].levels[l][j].recs, bloom)
    ensures S.Get(h, t, k) == Find(run[i].levels[l][j].recs, k)
    ensures S.ReadAll(t.file, 0, t.dataEnd) == run[i].levels[l][j].recs
  {
    EngineTablesAreSnapshots(run, i, l, j);
    P.GetIsFind(h, t, run[i].levels[l][j].recs, bloom, k);
    P.IteratorEnumerates(h, t, run[i].levels[l][j].recs, bloom);
  }
}
