/**
 * The bundle codec and the in-memory index of package `fs` (fs/pack.go).
 *
 * `Pack` sorts the caller's files by path in place and runs them through the
 * structured encoder and the compressor; `New` decompresses and decodes a
 * bundle, panics when that fails, and builds the `Broccoli` index in one pass.
 * The encoder, compressor, decompressor and decoder are foreign code: they are
 * the four functions of a `Codec` value passed in by the caller.
 */
module Fs {
  import opened Wrappers
  import opened GoString

  type Bytes = seq<Byte>

  /** The exported fields of a file other than its path and content. */
  datatype Meta = Meta(name: Str, mode: nat, modTime: int)

  /** What the structured encoder writes for one file: its exported fields. */
  datatype Entry = Entry(path: Str, data: Bytes, meta: Meta)

  /**
   * A `*File`. The exported fields are the ones the encoder carries; no
   * operation modelled here writes them. The unexported `compressed` and `br`
   * are not encoded and are set by `New`.
   */
  class File {
    const Fpath: Str
    const Data: Bytes
    const Info: Meta
    var compressed: bool
    var br: Broccoli?

    /** A file as the decoder allocates it: exported fields filled, the rest zero. */
    constructor Decoded(e: Entry)
      ensures Exported() == e
      ensures !compressed && br == null
    {
      Fpath, Data, Info := e.path, e.data, e.meta;
      compressed, br := false, null;
    }

    function Exported(): Entry {
      Entry(Fpath, Data, Info)
    }
  }

  /** The virtual filesystem: a path-to-file map and the list of paths. */
  class Broccoli {
    var files: map<Str, File>
    var filePaths: seq<Str>

    constructor ()
      ensures files == map[] && filePaths == []
    {
      files, filePaths := map[], [];
    }

    /**
     * Every listed path is a key and every key is listed; each key maps to a
     * file with that path, attached to this filesystem and not compressed.
     */
    ghost predicate Valid()
      reads this, files.Values
    {
      && (forall p :: p in files <==> p in filePaths)
      && (forall p :: p in files ==> files[p].Fpath == p && files[p].br == this && !files[p].compressed)
    }
  }

  /** The foreign stages of the bundle pipeline. */
  datatype Codec = Codec(
    encode: seq<Entry> -> Result<Bytes>,      // gob encoding of a []*File
    compress: (Bytes, int) -> Result<Bytes>,  // Brotli at a quality level, ending with Close
    decompress: Bytes -> Result<Bytes>,       // Brotli reader
    decode: Bytes -> Result<seq<Entry>>)      // gob decoding into a []*File
  {
    /** The bundle for an already ordered sequence of entries. */
    function Seal(es: seq<Entry>, quality: int): Result<Bytes> {
      match encode(es)
      case Failure(e) => Failure(e)
      case Success(raw) => compress(raw, quality)
    }

    /** The entries of a bundle. */
    function Unpack(bundle: Bytes): Result<seq<Entry>> {
      match decompress(bundle)
      case Failure(e) => Failure(e)
      case Success(raw) => decode(raw)
    }

    /** Every bundle this codec produces decodes to the entries it was made from. */
    ghost predicate Faithful() {
      forall es: seq<Entry>, q: int {:trigger Seal(es, q)} ::
        Seal(es, q).Success? ==> Unpack(Seal(es, q).value) == Success(es)
    }
  }

  function Entries(fs: seq<File>): (es: seq<Entry>)
    ensures |es| == |fs|
  {
    seq(|fs|, i requires 0 <= i < |fs| => fs[i].Exported())
  }

  function PathsOf(es: seq<Entry>): (ps: seq<Str>)
    ensures |ps| == |es|
  {
    seq(|es|, i requires 0 <= i < |es| => es[i].path)
  }

  /** No later entry's path is below an earlier one's (the sort.Slice promise). */
  ghost predicate SortedByPath(es: seq<Entry>) {
    forall i, j :: 0 <= i < j < |es| ==> !Less(es[j].path, es[i].path)
  }

  ghost predicate UniquePaths(es: seq<Entry>) {
    forall i, j :: 0 <= i < j < |es| ==> es[i].path != es[j].path
  }

  // ---------------------------------------------------------------------------
  // Pack
  // ---------------------------------------------------------------------------

  /** The position of a file with the least path in `a[from..]`. */
  method MinIndex(a: array<File>, from: nat) returns (min: nat)
    requires from < a.Length
    ensures from <= min < a.Length
    ensures forall m :: from <= m < a.Length ==> !Less(a[m].Fpath, a[min].Fpath)
  {
    min := from;
    LessIrreflexive(a[from].Fpath);
    var j := from + 1;
    while j < a.Length
      invariant from <= min < j <= a.Length
      invariant forall m :: from <= m < j ==> !Less(a[m].Fpath, a[min].Fpath)
    {
      if Less(a[j].Fpath, a[min].Fpath) {
        forall m | from <= m < j
          ensures !Less(a[m].Fpath, a[j].Fpath)
        {
          if Less(a[m].Fpath, a[j].Fpath) {
            LessTransitive(a[m].Fpath, a[j].Fpath, a[min].Fpath);
          }
        }
        LessIrreflexive(a[j].Fpath);
        min := j;
      }
      j := j + 1;
    }
  }

  /** Exchanges two files of the array. */
  method Swap(a: array<File>, i: nat, j: nat)
    requires i < a.Length && j < a.Length
    modifies a
    ensures a[i] == old(a[j]) && a[j] == old(a[i])
    ensures forall m :: 0 <= m < a.Length && m != i && m != j ==> a[m] == old(a[m])
    ensures multiset(a[..]) == multiset(old(a[..]))
  {
    a[i], a[j] := a[j], a[i];
  }

  /** Sorts the files in place by path (any order among equal paths). */
  method SortByPath(a: array<File>)
    modifies a
    ensures SortedByPath(Entries(a[..]))
    ensures multiset(a[..]) == multiset(old(a[..]))
  {
    var i := 0;
    while i < a.Length
      invariant 0 <= i <= a.Length
      invariant forall k, m :: 0 <= k < m < i ==> !Less(a[m].Fpath, a[k].Fpath)
      invariant forall k, m :: 0 <= k < i <= m < a.Length ==> !Less(a[m].Fpath, a[k].Fpath)
      invariant multiset(a[..]) == multiset(old(a[..]))
    {
      var min := MinIndex(a, i);
      Swap(a, i, min);
      i := i + 1;
    }
  }

  /**
   * Pack: sort the caller's files by path in place, then encode and compress
   * the sorted sequence. An encoder or compressor error is returned as is.
   */
  method Pack(files: array<File>, quality: int, codec: Codec) returns (r: Result<Bytes>)
    modifies files
    ensures SortedByPath(Entries(files[..]))
    ensures multiset(files[..]) == multiset(old(files[..]))
    ensures r == codec.Seal(Entries(files[..]), quality)
    ensures codec.encode(Entries(files[..])).Failure? ==>
              r == Failure(codec.encode(Entries(files[..])).error)
    ensures codec.encode(Entries(files[..])).Success? ==>
              r == codec.compress(codec.encode(Entries(files[..])).value, quality)
  {
    SortByPath(files);
    var encoded := codec.encode(Entries(files[..]));
    if encoded.Failure? {
      return Failure(encoded.error);
    }
    var closed := codec.compress(encoded.value, quality);
    if closed.Failure? {
      return Failure(closed.error);
    }
    return Success(closed.value);
  }

  lemma {:induction false} EntriesAppend(s: seq<File>, t: seq<File>)
    ensures Entries(s + t) == Entries(s) + Entries(t)
  {
  }

  /** Taking the first element out of `a` and a copy of it out of `b` keeps them permutations. */
  lemma PermutationWithout<T>(a: seq<T>, b: seq<T>, k: nat)
    requires multiset(a) == multiset(b) && 0 < |a| && k < |b| && b[k] == a[0]
    ensures multiset(a[1..]) == multiset(b[..k] + b[k + 1..])
  {
    assert b == b[..k] + [b[k]] + b[k + 1..];
    assert a == [a[0]] + a[1..];
    assert multiset(b) == multiset(b[..k] + b[k + 1..]) + multiset{a[0]};
    assert multiset(a) == multiset(a[1..]) + multiset{a[0]};
    assert multiset(a[1..]) == multiset(a) - multiset{a[0]};
  }

  /** Reordering the files reorders their entries the same way. */
  lemma {:induction false} EntriesPermutation(a: seq<File>, b: seq<File>)
    requires multiset(a) == multiset(b)
    ensures multiset(Entries(a)) == multiset(Entries(b))
    decreases |a|
  {
    if |a| == 0 {
      assert |b| == |multiset(b)| == 0;
      return;
    }
    assert a[0] in multiset(b);
    var k :| 0 <= k < |b| && b[k] == a[0];
    PermutationWithout(a, b, k);
    EntriesPermutation(a[1..], b[..k] + b[k + 1..]);
    assert a == [a[0]] + a[1..];
    assert b == b[..k] + [b[k]] + b[k + 1..];
    EntriesAppend([a[0]], a[1..]);
    EntriesAppend(b[..k] + [b[k]], b[k + 1..]);
    EntriesAppend(b[..k], [b[k]]);
    EntriesAppend(b[..k], b[k + 1..]);
  }

  /** Putting an entry whose path is new anywhere into a uniquely-pathed sequence keeps it unique. */
  lemma InsertFreshPath(rest: seq<Entry>, x: Entry, k: nat)
    requires UniquePaths(rest) && k <= |rest|
    requires forall m :: 0 <= m < |rest| ==> rest[m].path != x.path
    ensures UniquePaths(rest[..k] + [x] + rest[k..])
  {
  }

  /** In a uniquely-pathed sequence, nothing permuted from the tail shares the head's path. */
  lemma HeadPathFresh(a: seq<Entry>, rest: seq<Entry>)
    requires 0 < |a| && UniquePaths(a) && multiset(a[1..]) == multiset(rest)
    ensures forall m :: 0 <= m < |rest| ==> rest[m].path != a[0].path
  {
    forall m | 0 <= m < |rest|
      ensures rest[m].path != a[0].path
    {
      assert rest[m] in multiset(a[1..]);
      var n :| 0 <= n < |a[1..]| && a[1..][n] == rest[m];
      assert a[n + 1] == rest[m];
    }
  }

  /** Uniqueness of paths does not depend on the order of the entries. */
  lemma {:induction false} UniqueUnderPermutation(a: seq<Entry>, b: seq<Entry>)
    requires multiset(a) == multiset(b) && UniquePaths(a)
    ensures UniquePaths(b)
    decreases |a|
  {
    if |a| == 0 {
      assert |b| == |multiset(b)| == 0;
      return;
    }
    assert a[0] in multiset(b);
    var k :| 0 <= k < |b| && b[k] == a[0];
    var rest := b[..k] + b[k + 1..];
    PermutationWithout(a, b, k);
    UniqueUnderPermutation(a[1..], rest);
    HeadPathFresh(a, rest);
    InsertFreshPath(rest, a[0], k);
    assert b == rest[..k] + [a[0]] + rest[k..];
  }

  /** Two sorted permutations of uniquely-pathed entries start with the same entry. */
  lemma SortedHeadsEqual(a: seq<Entry>, b: seq<Entry>)
    requires 0 < |a| && 0 < |b| && multiset(a) == multiset(b)
    requires SortedByPath(a) && SortedByPath(b) && UniquePaths(a)
    ensures a[0] == b[0]
  {
    assert b[0] in multiset(a);
    var k :| 0 <= k < |a| && a[k] == b[0];
    assert a[0] in multiset(b);
    var l :| 0 <= l < |b| && b[l] == a[0];
    LessTrichotomous(a[0].path, b[0].path);
    assert a[0].path == a[k].path;
  }

  /** With unique paths there is only one sorted order of a set of entries. */
  lemma {:induction false} SortedPermutationsEqual(a: seq<Entry>, b: seq<Entry>)
    requires multiset(a) == multiset(b)
    requires SortedByPath(a) && SortedByPath(b) && UniquePaths(a)
    ensures a == b
    decreases |a|
  {
    assert |b| == |multiset(b)| == |a|;
    if |a| == 0 {
      return;
    }
    SortedHeadsEqual(a, b);
    PermutationWithout(a, b, 0);
    assert SortedByPath(a[1..]) && SortedByPath(b[1..]) && UniquePaths(a[1..]);
    SortedPermutationsEqual(a[1..], b[1..]);
    assert a == [a[0]] + a[1..] && b == [b[0]] + b[1..];
  }

  /**
   * Packing is reproducible: two orderings of the same uniquely-pathed entries,
   * once sorted, give the same bundle or the same error.
   */
  lemma PackReproducible(a: seq<Entry>, b: seq<Entry>, quality: int, codec: Codec)
    requires multiset(a) == multiset(b) && UniquePaths(a)
    requires SortedByPath(a) && SortedByPath(b)
    ensures codec.Seal(a, quality) == codec.Seal(b, quality)
  {
    SortedPermutationsEqual(a, b);
  }

  /** Two `Pack` calls on reorderings of the same files return the same result. */
  method PackTwice(x: array<File>, y: array<File>, quality: int, codec: Codec)
      returns (rx: Result<Bytes>, ry: Result<Bytes>)
    requires multiset(Entries(x[..])) == multiset(Entries(y[..])) && UniquePaths(Entries(x[..]))
    modifies x, y
    ensures rx == ry
  {
    ghost var x0, y0 := x[..], y[..];
    rx := Pack(x, quality, codec);
    ghost var x1, y1 := x[..], y[..];
    ry := Pack(y, quality, codec);
    ghost var y2 := y[..];
    EntriesPermutation(x0, x1);
    EntriesPermutation(y1, y2);
    if x != y {
      assert y1 == y0;
    }
    UniqueUnderPermutation(Entries(x0), Entries(x1));
    PackReproducible(Entries(x1), Entries(y2), quality, codec);
  }

  // ---------------------------------------------------------------------------
  // New
  // ---------------------------------------------------------------------------

  /** The path-to-file map after inserting `fs` in order: a later file replaces an earlier one. */
  function Index(fs: seq<File>): map<Str, File> {
    if fs == [] then map[]
    else Index(fs[..|fs| - 1])[fs[|fs| - 1].Fpath := fs[|fs| - 1]]
  }

  /** The position of the last file with path `p`, or -1 when there is none. */
  function LastIndex(fs: seq<File>, p: Str): (i: int)
    ensures -1 <= i < |fs|
    ensures i >= 0 ==> fs[i].Fpath == p
    ensures forall j :: i < j < |fs| ==> fs[j].Fpath != p
  {
    if fs == [] then -1
    else if fs[|fs| - 1].Fpath == p then |fs| - 1
    else LastIndex(fs[..|fs| - 1], p)
  }

  /**
   * The index holds a path iff some file has it, and then it holds the last
   * file with that path.
   */
  lemma {:induction false} IndexIsLast(fs: seq<File>, p: Str)
    ensures p in Index(fs) <==> LastIndex(fs, p) >= 0
    ensures p in Index(fs) ==> Index(fs)[p] == fs[LastIndex(fs, p)]
  {
    if fs != [] {
      var n := |fs| - 1;
      IndexIsLast(fs[..n], p);
      if fs[n].Fpath != p && LastIndex(fs[..n], p) >= 0 {
        assert fs[..n][LastIndex(fs[..n], p)] == fs[LastIndex(fs, p)];
      }
    }
  }

  /** With unique paths every file is the one the index holds under its path. */
  lemma IndexUnique(fs: seq<File>, i: nat)
    requires UniquePaths(Entries(fs)) && i < |fs|
    ensures fs[i].Fpath in Index(fs) && Index(fs)[fs[i].Fpath] == fs[i]
  {
    var k := LastIndex(fs, fs[i].Fpath);
    IndexIsLast(fs, fs[i].Fpath);
    assert Entries(fs)[i].path == fs[i].Fpath && Entries(fs)[k].path == fs[k].Fpath;
    if i != k {
      // then i < k, and the two share a path
      assert false;
    }
  }

  /**
   * The state the loop of `New` leaves behind satisfies the filesystem
   * invariant.
   */
  lemma IndexValid(br: Broccoli, fs: seq<File>)
    requires br.files == Index(fs) && br.filePaths == PathsOf(Entries(fs))
    requires forall f :: f in fs ==> !f.compressed && f.br == br
    ensures br.Valid()
  {
    forall p
      ensures p in br.files <==> p in br.filePaths
      ensures p in br.files ==> br.files[p].Fpath == p && br.files[p] in fs
    {
      IndexIsLast(fs, p);
      var k := LastIndex(fs, p);
      if k >= 0 {
        assert PathsOf(Entries(fs))[k] == p;
      }
      if p in br.filePaths {
        var j :| 0 <= j < |fs| && PathsOf(Entries(fs))[j] == p;
        assert fs[j].Fpath == p;
      }
    }
  }

  /** The files the decoder allocates for the decoded entries, fresh and zeroed. */
  method Materialize(es: seq<Entry>) returns (fs: seq<File>)
    ensures Entries(fs) == es
    ensures forall f :: f in fs ==> fresh(f) && !f.compressed && f.br == null
  {
    fs := [];
    var i := 0;
    while i < |es|
      invariant i == |fs| <= |es|
      invariant Entries(fs) == es[..i]
      invariant forall f :: f in fs ==> fresh(f) && !f.compressed && f.br == null
    {
      var f := new File.Decoded(es[i]);
      EntriesAppend(fs, [f]);
      fs := fs + [f];
      i := i + 1;
    }
    assert es[..i] == es;
  }

  /** Extending the processed prefix by one file extends the index and the path list by it. */
  lemma PrefixStep(fs: seq<File>, i: nat)
    requires i < |fs|
    ensures Index(fs[..i + 1]) == Index(fs[..i])[fs[i].Fpath := fs[i]]
    ensures PathsOf(Entries(fs[..i + 1])) == PathsOf(Entries(fs[..i])) + [fs[i].Fpath]
  {
    assert fs[..i + 1][..i] == fs[..i];
  }

  /** The result of `New`: the filesystem, or the value it panics with. */
  datatype Loaded = Loaded(br: Broccoli) | Panicked(reason: Error)

  /**
   * New: decompress and decode the bundle, panicking on failure; then mark
   * every decoded file uncompressed and attached, and index it by path in
   * decoded order. `opt` has no effect.
   */
  method New(opt: bool, bundle: Bytes, codec: Codec) returns (r: Loaded, ghost decoded: seq<File>)
    ensures r.Panicked? <==> codec.Unpack(bundle).Failure?
    ensures r.Panicked? ==> r.reason == codec.Unpack(bundle).error
    ensures r.Loaded? ==>
              && fresh(r.br)
              && Entries(decoded) == codec.Unpack(bundle).value
              && (forall f :: f in decoded ==> fresh(f) && !f.compressed && f.br == r.br)
              && r.br.filePaths == PathsOf(codec.Unpack(bundle).value)
              && r.br.files == Index(decoded)
              && r.br.Valid()
  {
    var unpacked := codec.Unpack(bundle);
    if unpacked.Failure? {
      return Panicked(unpacked.error), [];
    }
    var files := Materialize(unpacked.value);
    decoded := files;
    var br := new Broccoli();
    var i := 0;
    while i < |files|
      invariant 0 <= i <= |files|
      invariant fresh(br)
      invariant forall f :: f in files ==> fresh(f)
      invariant br.files == Index(files[..i])
      invariant br.filePaths == PathsOf(Entries(files[..i]))
      invariant forall k :: 0 <= k < i ==> !files[k].compressed && files[k].br == br
    {
      var f := files[i];
      assert f in files;
      f.compressed := false;
      f.br := br;
      br.files := br.files[f.Fpath := f];
      br.filePaths := br.filePaths + [f.Fpath];
      PrefixStep(files, i);
      i := i + 1;
    }
    assert files[..i] == files;
    IndexValid(br, files);
    return Loaded(br), decoded;
  }

  /**
   * Packing files and loading the bundle with a codec that round-trips gives a
   * filesystem listing the paths in sorted order.
   */
  method PackThenLoad(files: array<File>, quality: int, opt: bool, codec: Codec)
      returns (r: Result<Broccoli>)
    requires codec.Faithful()
    modifies files
    ensures SortedByPath(Entries(files[..])) && multiset(files[..]) == multiset(old(files[..]))
    ensures r.Success? <==> codec.Seal(Entries(files[..]), quality).Success?
    ensures r.Success? ==>
              && r.value.filePaths == PathsOf(Entries(files[..]))
              && (forall i, j :: 0 <= i < j < |r.value.filePaths| ==>
                    !Less(r.value.filePaths[j], r.value.filePaths[i]))
              && r.value.Valid()
  {
    var bundle := Pack(files, quality, codec);
    if bundle.Failure? {
      return Failure(bundle.error);
    }
    var loaded;
    ghost var decoded;
    loaded, decoded := New(opt, bundle.value, codec);
    return Success(loaded.br);
  }
}
