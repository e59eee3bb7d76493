# Broccoli bundle codec and index, in Dafny

This project models `fs/pack.go` of broccoli, a Go package that embeds a directory tree in a program
as one compressed blob and serves it back as a read-only virtual filesystem. The file has two
operations:

- `Pack(files, quality)` sorts the caller's `[]*File` slice in place by `Fpath` with Go's string
  `<`. It then gob-encodes the sorted slice into a Brotli writer at the given quality, closes the
  writer and returns the bytes. An error from the encoder or from `Close` is returned with nil bytes.
- `New(opt, bundle)` Brotli-decompresses and gob-decodes the bundle into a `[]*File`. It panics if
  that fails. Otherwise one loop marks every decoded file `compressed = false`, points its `br` at the
  new `Broccoli`, stores it in the `files` map under its `Fpath` and appends the `Fpath` to
  `filePaths`.

Modules:

- `Wrappers` (wrappers.dfy): `Result`, for Go's `(value, error)` pairs.
- `GoString` (gostring.dfy): Go strings as byte sequences. Go's `<` on strings is `Less`, and it is
  proved to be a strict total order.
- `Fs` (fs.dfy): `File` and `Broccoli` as classes; the foreign encoder, compressor, decompressor and
  decoder as the four function-valued fields of a `Codec` value the caller passes in; `Pack`,
  `New` and the lemmas about them.

The exported fields of a `File` are what gob carries. They are `const` in the model, and `Entry` is
their value. The unexported `compressed` and `br` are mutable fields; `New` sets them.
`Pack` works on an `array<File>`, which stands for the caller's slice. `sort.Slice` is modelled by a
selection sort. Its contract is what `sort.Slice` promises: the result is sorted and is a permutation.
The panic in `New` is the `Panicked` outcome of `Loaded`.

The codec is opaque, so facts about a real Brotli and gob stream are hypotheses:
`Codec.Faithful()` says that every bundle the codec produces decodes to the entries it was made
from. It is a precondition of `PackThenLoad` only. The test that `New(false, nil)` panics
(main_test.go:75-77) follows from `New`'s contract for any codec whose `Unpack` rejects the empty
bundle.

Two points where the comments or the intended use say more than the code does:

- The doc comment of `New` (fs/pack.go:32-34) speaks of optional decompression selected by `opt`.
  The body never reads `opt` and always sets `compressed = false`, so `New`'s contract does not
  mention `opt`.
- The generator is meant to produce unique paths, but neither `Pack` nor `New` checks this. The
  model does not assume it: duplicates are sorted in an unspecified order, and in the index the
  last one wins. Reproducibility of `Pack` is proved for unique paths only.

## Model

| member | source | states |
|---|---|---|
| `GoString.LessIrreflexive` | fs/pack.go:16 | no path is `<` itself |
| `GoString.LessTransitive` | fs/pack.go:16 | Go's string `<` used as the sort comparator is transitive |
| `GoString.LessTrichotomous` | fs/pack.go:16 | any two paths are equal or ordered one way by `<`, so the comparator is total |
| `Fs.MinIndex` | fs/pack.go:15-17 | returns a position in `a[from..]` whose path no later file's path is below |
| `Fs.SortByPath` | fs/pack.go:15-17 | after the in-place sort no file's path is `<` an earlier one's, and the array holds the same files as a multiset |
| `Fs.Pack` | fs/pack.go:14-30 | the slice is sorted by path and a permutation of the input; the result is the compressed encoding of the sorted entries; an encoder error or else a compressor/`Close` error is returned unchanged with no bytes |
| `Fs.EntriesPermutation` | fs/pack.go:15-21 | reordering the files reorders the encoded entries the same way, as a multiset |
| `Fs.UniqueUnderPermutation` | fs/pack.go:15-17 | if the paths are unique before sorting they are unique after it |
| `Fs.SortedPermutationsEqual` | fs/pack.go:15-17 | two sorted permutations of the same uniquely-pathed entries are equal |
| `Fs.PackReproducible` | fs/pack.go:15-29 | for unique paths, the bundle, or the error, depends only on the set of entries and the quality, not on the input order |
| `Fs.PackTwice` | fs/pack.go:14-30 | two `Pack` calls on reorderings of the same uniquely-pathed files return identical results |
| `Fs.File.Decoded` | fs/pack.go:38-40 | a decoded file holds the decoded exported fields; `compressed` is false and `br` is nil |
| `Fs.Materialize` | fs/pack.go:38-42 | decoding allocates one fresh file per decoded entry, in order |
| `Fs.Broccoli.constructor` | fs/pack.go:44-47 | a new filesystem has an empty map and an empty path list |
| `Fs.New` | fs/pack.go:37-60 | panics with the decoder's error iff decompressing or decoding fails; otherwise every decoded file is uncompressed and attached to the new filesystem, `filePaths` is the decoded paths in decoded order, `files` is the last-writer-wins index of the decoded files, and the filesystem invariant `Valid` holds; `opt` has no effect |
| `Fs.LastIndex` | fs/pack.go:49-55 | the position of the last decoded file with a given path, or -1 exactly when no file has it |
| `Fs.IndexIsLast` | fs/pack.go:55 | after the inserts the map holds a path iff some file has it, and then maps it to the last file with that path (last writer wins) |
| `Fs.IndexUnique` | fs/pack.go:55 | with unique paths every decoded file is the map entry for its own path |
| `Fs.IndexValid` | fs/pack.go:49-56 | the map and path list the loop leaves behind list the same paths, and each key maps to an attached, uncompressed file with that path |
| `Fs.PackThenLoad` | main_test.go:53-65 | with a round-tripping codec, packing then loading succeeds iff packing does, and `filePaths` is the input's paths in sorted order |

## Left out

- Gob encoding and Brotli compression are opaque functions in `Codec`; their byte formats and error conditions are not modelled.
- In Go the encoder streams into the Brotli writer, so a write error raised while encoding is reported by `Encode`. The model reports it from `encode`, and only errors raised by `Close` come from `compress`.
- `Codec.Faithful` (the round trip of the foreign codec) is a hypothesis of `PackThenLoad`; it is not proved.
- Nil elements in the slice are not modelled: `array<File>` holds only non-nil files. Go's comparator would panic on a nil element.
- `sort.Slice`'s pattern-defeating quicksort is not modelled. A selection sort stands for it, and only sortedness and permutation are promised, which is all `sort.Slice` promises.
- The exported `File` fields are `const`. Nothing in `fs/pack.go` writes them. The test writes `Fpath` only to exercise `Readdir` (main_test.go:344), which is not part of this model.
- The declaration of `File` is not part of this model. `Meta` summarises its exported fields other than `Fpath` and `Data`.
- The capacity hint of `make([]string, 0, len(files))` has no observable effect and is not modelled.
- File handles (`Open`, `Read`, `Seek`, `Readdir`, `Stat`, `Close`), `Walk` and `Serve` are defined in files that are not part of this model.
- The generator (directory walking, glob filters, `.gitignore` rules) is not part of this model; it is file-system I/O.
- Timing and the floating-point compression factor printed by the test are not modelled.
