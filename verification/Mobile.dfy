/** The mobile client's download: chunks may come in any order, more than once, and
    between the chunks of other files. */
module Mobile {
  import opened Bytes
  import opened Wrappers
  import opened Protocol

  /** A JavaScript `Map` from index to bytes, in the order of insertion. */
  type Parts = seq<(nat, Buf)>

  function Lookup(parts: Parts, i: nat): Option<Buf> {
    if parts == [] then None
    else if parts[|parts| - 1].0 == i then Some(parts[|parts| - 1].1)
    else Lookup(parts[..|parts| - 1], i)
  }

  /** No index is there twice. */
  predicate Distinct(parts: Parts) {
    parts != [] ==> Distinct(parts[..|parts| - 1]) && Lookup(parts[..|parts| - 1], parts[|parts| - 1].0).None?
  }

  /** The sum of the lengths of all parts. */
  function SumLen(parts: Parts): nat {
    if parts == [] then 0 else SumLen(parts[..|parts| - 1]) + |parts[|parts| - 1].1|
  }

  function PartOr(parts: Parts, i: nat): Buf {
    match Lookup(parts, i) case Some(b) => b case None => []
  }

  /** The parts below `n` that are there, joined in the order of their indices. */
  function Gather(parts: Parts, n: nat): Buf {
    if n == 0 then [] else Gather(parts, n - 1) + PartOr(parts, n - 1)
  }

  /** The buffer that is saved: as long as all parts together, filled with the parts below `total`, the rest zeros. */
  function Merged(parts: Parts, total: nat): (r: Buf)
    requires Distinct(parts)
  {
    GatherFits(parts, total);
    Gather(parts, total) + seq(SumLen(parts) - |Gather(parts, total)|, i => 0 as byte)
  }

  lemma {:induction false} GatherOneMore(front: Parts, k: nat, b: Buf, n: nat)
    requires Lookup(front, k).None?
    ensures |Gather(front + [(k, b)], n)| == |Gather(front, n)| + (if k < n then |b| else 0)
    decreases n
  {
    if n > 0 {
      GatherOneMore(front, k, b, n - 1);
      LookupMore(front, k, b, n - 1);
    }
  }

  lemma LookupMore(front: Parts, k: nat, b: Buf, i: nat)
    ensures Lookup(front + [(k, b)], i) == if i == k then Some(b) else Lookup(front, i)
  {
    assert (front + [(k, b)])[..|front|] == front;
  }

  /** The parts below `n` are never longer than all parts, and as long when every index is below `n`. */
  lemma {:induction false} GatherFits(parts: Parts, n: nat)
    requires Distinct(parts)
    ensures |Gather(parts, n)| <= SumLen(parts)
    ensures (forall i: nat :: Lookup(parts, i).Some? ==> i < n) ==> |Gather(parts, n)| == SumLen(parts)
    decreases |parts|
  {
    if parts == [] {
      NothingGathered(n);
    } else {
      var front, k, b := parts[..|parts| - 1], parts[|parts| - 1].0, parts[|parts| - 1].1;
      assert parts == front + [(k, b)];
      GatherFits(front, n);
      GatherOneMore(front, k, b, n);
      assert Lookup(parts, k).Some?;
      forall i: nat | (forall j: nat :: Lookup(parts, j).Some? ==> j < n) && Lookup(front, i).Some?
        ensures i < n
      {
        LookupMore(front, k, b, i);
        assert Lookup(parts, i).Some?;
      }
    }
  }

  lemma {:induction false} NothingGathered(n: nat)
    ensures Gather([], n) == []
  {
    if n > 0 { NothingGathered(n - 1); }
  }

  // ---- the store ------------------------------------------------------------------

  datatype Download = Download(total: nat, parts: Parts, received: nat)

  /** Running downloads by name, everything saved, and every "file not found". */
  datatype Store = Store(downloads: map<Buf, Download>, saved: seq<(Buf, Buf)>, missing: seq<Buf>)

  predicate Valid(st: Store) {
    forall name :: name in st.downloads ==> Distinct(st.downloads[name].parts)
  }

  /** A download after one chunk: a part already there is not replaced. */
  function WithChunk(d: Download, c: Chunk): Download {
    if Lookup(d.parts, c.idx).Some? then d
    else Download(d.total, d.parts + [(c.idx, c.bytes)], d.received + 1)
  }

  /** `onFileData`. */
  function OnFileData(st: Store, payload: Buf): (r: Store)
    requires Valid(st)
    ensures Valid(r)
  {
    match ParseFileData(payload)
    case None => st
    case Some(c) =>
      if c.total == 0 then Store(st.downloads - {c.name}, st.saved, st.missing + [c.name])
      else
        var d0 := if c.name in st.downloads then st.downloads[c.name] else Download(c.total, [], 0);
        var d := WithChunk(d0, c);
        assert Distinct(d.parts) by {
          if Lookup(d0.parts, c.idx).None? { OneMoreDistinct(d0.parts, c.idx, c.bytes); }
        }
        if d.received >= d.total then
          Store(st.downloads - {c.name}, st.saved + [(c.name, Merged(d.parts, d.total))], st.missing)
        else
          Store(st.downloads[c.name := d], st.saved, st.missing)
  }

  /** The client's store as an object. */
  class MobileStore {
    var downloads: map<Buf, Download>
    var saved: seq<(Buf, Buf)>
    var missing: seq<Buf>

    constructor ()
      ensures State() == Store(map[], [], [])
    {
      downloads, saved, missing := map[], [], [];
    }

    function State(): Store
      reads this
    {
      Store(downloads, saved, missing)
    }

    /** Deals with the payload of one file chunk. */
    method ReceiveFileData(payload: Buf)
      requires Valid(State())
      modifies this
      ensures Valid(State()) && State() == OnFileData(old(State()), payload)
    {
      hide ParseFileData, Merged, Lookup, Distinct;
      ghost var was := downloads;
      var chunk := ParseFileData(payload);
      if chunk.None? { return; }
      var c := chunk.value;
      if c.total == 0 {
        downloads := downloads - {c.name};
        missing := missing + [c.name];
        return;
      }
      var dl: Download;
      if c.name in downloads {
        dl := downloads[c.name];
      } else {
        dl := Download(c.total, [], 0);
        downloads := downloads[c.name := dl];
        NoPartsDistinct();
      }
      if Lookup(dl.parts, c.idx).None? {
        OneMoreDistinct(dl.parts, c.idx, c.bytes);
        dl := Download(dl.total, dl.parts + [(c.idx, c.bytes)], dl.received + 1);
        downloads := downloads[c.name := dl];
      }
      assert downloads == was[c.name := dl];
      if dl.received >= dl.total {
        var merged := Merge(dl.parts, dl.total);
        assert downloads - {c.name} == was - {c.name};
        downloads := downloads - {c.name};
        saved := saved + [(c.name, merged)];
      }
    }
  }

  lemma NoPartsDistinct()
    ensures Distinct([])
  {
  }

  lemma OneMoreDistinct(parts: Parts, k: nat, b: Buf)
    requires Distinct(parts) && Lookup(parts, k).None?
    ensures Distinct(parts + [(k, b)])
  {
    assert (parts + [(k, b)])[..|parts|] == parts;
  }

  /** The loop that measures. */
  method TotalLength(parts: Parts) returns (n: nat)
    ensures n == SumLen(parts)
  {
    n := 0;
    for i := 0 to |parts|
      invariant n == SumLen(parts[..i])
    {
      assert parts[..i + 1][..i] == parts[..i];
      n := n + |parts[i].1|;
    }
    assert parts[..|parts|] == parts;
  }

  lemma GatherStep(parts: Parts, i: nat)
    ensures Gather(parts, 0) == []
    ensures Gather(parts, i + 1) == Gather(parts, i) + PartOr(parts, i)
  {
  }

  /** Allocates the buffer that is saved and fills it. */
  method Merge(parts: Parts, total: nat) returns (r: Buf)
    requires Distinct(parts)
    ensures r == Merged(parts, total)
  {
    hide Lookup, Distinct, Gather, SumLen;
    var totalLen := TotalLength(parts);
    var merged := new byte[totalLen](i => 0);
    var off := 0;
    GatherStep(parts, 0);
    for i := 0 to total
      invariant off == |Gather(parts, i)| <= totalLen
      invariant merged[..off] == Gather(parts, i)
      invariant forall j :: off <= j < totalLen ==> merged[j] == 0
    {
      GatherStep(parts, i);
      GatherFits(parts, i + 1);
      var part := Lookup(parts, i);
      if part.Some? {
        Fill(merged, off, part.value);
        off := off + |part.value|;
      }
    }
    r := merged[..];
    assert merged[off..] == seq(totalLen - off, i => 0 as byte);
    assert merged[..] == merged[..off] + merged[off..];
  }

  /** `merged.set(part, off)`. */
  method Fill(a: array<byte>, off: nat, part: Buf)
    requires off + |part| <= a.Length
    modifies a
    ensures a[..off + |part|] == old(a[..off]) + part
    ensures forall j :: 0 <= j < a.Length && !(off <= j < off + |part|) ==> a[j] == old(a[j])
  {
    for k := 0 to |part|
      invariant forall j :: 0 <= j < k ==> a[off + j] == part[j]
      invariant forall j :: 0 <= j < a.Length && !(off <= j < off + k) ==> a[j] == old(a[j])
    {
      a[off + k] := part[k];
    }
  }
}
