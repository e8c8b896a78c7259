/**
 * The positional vector store: an exact inner-product index (faiss
 * IndexFlatIP) over the stored vectors, a metadata list kept beside it
 * position by position, and save/load through two files.
 */
module VectorStore {
  import opened Values
  import opened Ranking

  /** Inner product of two vectors of the same dimension, in exact arithmetic. */
  function Dot(a: Vector, b: Vector): real
    requires |a| == |b|
  {
    if |a| == 0 then 0.0 else a[0] * b[0] + Dot(a[1..], b[1..])
  }

  /** The state of a flat index: its dimension and its vectors in insertion order. */
  datatype FlatIndex = FlatIndex(d: nat, vectors: seq<Vector>)

  /** A flat index only ever holds vectors of its own dimension. */
  predicate WellFormed(ix: FlatIndex) {
    forall i | 0 <= i < |ix.vectors| :: |ix.vectors[i]| == ix.d
  }

  /** One search result: a stored position (or the padding label) and its score. */
  datatype Hit = Hit(idx: int, score: real)

  /** What the index reports in the slots it has no vector for. */
  const PadLabel: int := -1
  /** -FLT_MAX, the lowest finite single-precision value. */
  const PadScore: real := -340282346638528859811704183484516925440.0

  /** The score of every stored vector against the query. */
  function Scores(ix: FlatIndex, q: Vector): (r: seq<real>)
    requires WellFormed(ix) && |q| == ix.d
    ensures |r| == |ix.vectors|
    ensures forall p | 0 <= p < |r| :: r[p] == Dot(ix.vectors[p], q)
  {
    seq(|ix.vectors|, p requires 0 <= p < |ix.vectors| => Dot(ix.vectors[p], q))
  }

  function Labels(hits: seq<Hit>): (r: seq<int>)
    ensures |r| == |hits|
    ensures forall i | 0 <= i < |r| :: r[i] == hits[i].idx
  {
    seq(|hits|, i requires 0 <= i < |hits| => hits[i].idx)
  }

  /**
   * The answer of an exact inner-product search for k results: always k
   * pairs; the first min(k, n) are the best stored positions, best first,
   * each with its inner product; the remaining slots are padding.
   */
  ghost predicate IsSearchResult(ix: FlatIndex, q: Vector, k: nat, hits: seq<Hit>)
    requires WellFormed(ix) && |q| == ix.d
  {
    var m := Min(k, |ix.vectors|);
    && |hits| == k
    && IsTop(Scores(ix, q), Labels(hits[..m]))
    && (forall i | 0 <= i < m :: 0 <= hits[i].idx < |ix.vectors| && hits[i].score == Dot(ix.vectors[hits[i].idx], q))
    && (forall i | m <= i < k :: hits[i] == Hit(PadLabel, PadScore))
  }

  /** A slot is padding exactly when its rank is at or past the number of stored vectors. */
  lemma SearchPadding(ix: FlatIndex, q: Vector, k: nat, hits: seq<Hit>)
    requires WellFormed(ix) && |q| == ix.d
    requires IsSearchResult(ix, q, k, hits)
    ensures forall i | 0 <= i < |hits| :: hits[i].idx == PadLabel <==> i >= |ix.vectors|
    ensures forall i | 0 <= i < |hits| && hits[i].idx != PadLabel :: 0 <= hits[i].idx < |ix.vectors|
  {
    var m := Min(k, |ix.vectors|);
    forall i | 0 <= i < |hits|
      ensures hits[i].idx == PadLabel <==> i >= |ix.vectors|
    {
      if i < m {
        assert 0 <= hits[i].idx;
      }
    }
  }

  /**
   * Scores never increase along the real results; if no inner product is
   * below -FLT_MAX (as in single precision), they never increase along the
   * whole answer, padding included.
   */
  lemma SearchScoresNonIncreasing(ix: FlatIndex, q: Vector, k: nat, hits: seq<Hit>)
    requires WellFormed(ix) && |q| == ix.d
    requires IsSearchResult(ix, q, k, hits)
    ensures forall i, j | 0 <= i < j < Min(k, |ix.vectors|) :: hits[i].score >= hits[j].score
    ensures (forall p | 0 <= p < |ix.vectors| :: Dot(ix.vectors[p], q) >= PadScore) ==>
              forall i, j | 0 <= i < j < |hits| :: hits[i].score >= hits[j].score
  {
    var m := Min(k, |ix.vectors|);
    var scores := Scores(ix, q);
    var picks := Labels(hits[..m]);
    assert forall i | 0 <= i < m :: picks[i] == hits[i].idx && hits[i].score == scores[picks[i]];
    if forall p | 0 <= p < |ix.vectors| :: Dot(ix.vectors[p], q) >= PadScore {
      forall i, j | 0 <= i < j < |hits|
        ensures hits[i].score >= hits[j].score
      {
        if j >= m {
          if i < m {
            assert hits[i].score == scores[picks[i]] >= PadScore;
          }
        }
      }
    }
  }

  /** The files on disk: index files and JSON metadata files by name. */
  class Disk {
    var indexFiles: map<string, FlatIndex>
    var metaFiles: map<string, seq<Record>>

    /** Index files are only ever written from well-formed indexes. */
    ghost predicate Valid()
      reads this
    {
      forall name | name in indexFiles :: WellFormed(indexFiles[name])
    }

    constructor ()
      ensures indexFiles == map[] && metaFiles == map[]
      ensures Valid()
    {
      indexFiles := map[];
      metaFiles := map[];
    }
  }

  /** How a load ended: both files read, or the file that was not found. */
  datatype LoadOutcome = Loaded | IndexNotFound | MetaNotFound

  class FaissStore {
    const dim: nat
    const path: string
    var index: FlatIndex
    var meta: seq<Record>

    ghost predicate Valid()
      reads this
    {
      WellFormed(index)
    }

    /** Position i of the metadata describes stored vector i. */
    ghost predicate Aligned()
      reads this
    {
      |index.vectors| == |meta|
    }

    function IndexFile(): string {
      path + ".index"
    }

    function MetaFile(): string {
      path + ".meta.json"
    }

    /** An empty index of dimension `dim` and no metadata. */
    constructor (dim: nat, path: string)
      ensures this.dim == dim && this.path == path
      ensures index == FlatIndex(dim, []) && meta == []
      ensures Valid() && Aligned()
    {
      this.dim := dim;
      this.path := path;
      index := FlatIndex(dim, []);
      meta := [];
    }

    /**
     * Appends the vectors to the index and the records to the metadata;
     * nothing already stored moves or changes. The two batches are not
     * compared, so alignment survives only equal-length batches.
     */
    method Add(vs: seq<Vector>, metas: seq<Record>)
      requires Valid()
      requires forall i | 0 <= i < |vs| :: |vs[i]| == index.d
      modifies this
      ensures index == FlatIndex(old(index.d), old(index.vectors) + vs)
      ensures meta == old(meta) + metas
      ensures Valid()
      ensures old(Aligned()) && |vs| == |metas| ==> Aligned()
    {
      index := FlatIndex(index.d, index.vectors + vs);
      meta := meta + metas;
    }

    /** The k best stored positions for the query, padded to k pairs; the store is not changed. */
    method Search(q: Vector, k: nat) returns (hits: seq<Hit>)
      requires Valid() && |q| == index.d && k >= 1
      ensures IsSearchResult(index, q, k, hits)
    {
      var scores := Scores(index, q);
      var m := Min(k, |index.vectors|);
      var picks := SelectTop(scores, m);
      hits := [];
      for i := 0 to k
        invariant |hits| == i
        invariant forall j | 0 <= j < i && j < m :: hits[j] == Hit(picks[j], scores[picks[j]])
        invariant forall j | m <= j < i :: hits[j] == Hit(PadLabel, PadScore)
      {
        if i < m {
          hits := hits + [Hit(picks[i], scores[picks[i]])];
        } else {
          hits := hits + [Hit(PadLabel, PadScore)];
        }
      }
      assert Labels(hits[..m]) == picks;
    }

    /** Writes the index and the JSON form of the metadata; the store itself is not changed. */
    method Save(disk: Disk)
      requires Valid() && disk.Valid()
      modifies disk
      ensures disk.indexFiles == old(disk.indexFiles)[IndexFile() := index]
      ensures disk.metaFiles == old(disk.metaFiles)[MetaFile() := JsonRecords(meta)]
      ensures disk.Valid()
    {
      disk.indexFiles := disk.indexFiles[IndexFile() := index];
      disk.metaFiles := disk.metaFiles[MetaFile() := JsonRecords(meta)];
    }

    /**
     * Replaces the index, then the metadata, from the files. A missing index
     * file stops the load before anything changes; a missing metadata file
     * stops it after the index has been replaced.
     */
    method Load(disk: Disk) returns (outcome: LoadOutcome)
      requires Valid() && disk.Valid()
      modifies this
      ensures Valid()
      ensures IndexFile() !in disk.indexFiles ==>
                outcome == IndexNotFound && index == old(index) && meta == old(meta)
      ensures IndexFile() in disk.indexFiles && MetaFile() !in disk.metaFiles ==>
                outcome == MetaNotFound && index == disk.indexFiles[IndexFile()] && meta == old(meta)
      ensures IndexFile() in disk.indexFiles && MetaFile() in disk.metaFiles ==>
                outcome == Loaded && index == disk.indexFiles[IndexFile()] && meta == disk.metaFiles[MetaFile()]
    {
      if IndexFile() !in disk.indexFiles {
        return IndexNotFound;
      }
      index := disk.indexFiles[IndexFile()];
      if MetaFile() !in disk.metaFiles {
        return MetaNotFound;
      }
      meta := disk.metaFiles[MetaFile()];
      outcome := Loaded;
    }
  }

  /**
   * Loading right after saving gives back the same index and the JSON image
   * of the metadata, which is the metadata itself when it holds no tuples.
   */
  method SaveThenLoad(store: FaissStore, disk: Disk) returns (outcome: LoadOutcome)
    requires store.Valid() && disk.Valid()
    modifies store, disk
    ensures outcome == Loaded
    ensures store.index == old(store.index)
    ensures store.meta == JsonRecords(old(store.meta))
    ensures (forall i | 0 <= i < |old(store.meta)| :: RecordTupleFree(old(store.meta)[i])) ==>
              store.meta == old(store.meta)
  {
    store.Save(disk);
    outcome := store.Load(disk);
    if forall i | 0 <= i < |old(store.meta)| :: RecordTupleFree(old(store.meta)[i]) {
      JsonRecordsOfTupleFree(old(store.meta));
    }
  }
}
