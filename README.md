# Bloom filter and trigram extractor

This project models the two algorithmic parts of a small text-analysis
repository:

- `BloomFilter` (`bloom.py`): a fixed-size Bloom filter over strings. It holds a
  bit array and two string hash functions that the caller passes in. `add` sets
  the k probe bits `(h1 + i*h2) % size` for `i` in `0 .. k-1`. This is double
  hashing: two hash values give all k positions. `adds` adds several items.
  `check` reports membership. `confidence` is a graded score: the share of the k
  probe bits that are set. `dump` and `ingest` write and read the bit array as a
  packed byte image.
- `Trigram` (`trigram_interfacer.py`): collects the lower-cased three-character
  slices of a text into a set. The slices start at positions `0 .. len//3 - 1`.

Files:

- `packing.dfy`, module `Packing`: the packed image. Eight bits go in each byte,
  first bit in the most significant position, and the last byte is padded with
  zero bits. It also proves the round trips between bits and bytes.
- `bloom.dfy`, module `Bloom`: the filter's parameters (`Probing`) and their
  probe sequence. Pure specification functions describe the bit vector:
  `WithProbes`, `WithItems`, `AllSet`, `Hits`. Lemmas prove the filter's
  guarantees. The class `BloomFilter` has the source's fields and methods. Each
  method is proved against the specification functions.
- `trigram.dfy`, module `Trigrams`: the specification `TrigramsOf`, its lemmas,
  and the class `Trigram`.

Modelling choices:

- **Hash functions.** The caller supplies them as total functions
  `string -> nat`. In the model they are the constructor arguments `hashF` and
  `hashF2`. Python integers are unbounded, so the probe arithmetic is exact over
  `nat`.
- **The bit array.** It is a `seq<bool>` field named `filter`, and each method
  assigns it a new value. A seq fits because the source's bit array can change
  length: `ingest` clears it and appends the image's bits.
- **Filter invariant.** `Valid()` says the filter has at least `size` bits. A
  fresh filter has exactly `size`. After `ingest` it has `8 * |image|` bits,
  which can be any number from `size` up. It is at most seven more than `size`
  only when the image came from `dump` of a `size`-bit vector.
- **Requirements.** `add`, `check` and `confidence` require `size > 0`, because
  the source's `% self.size` raises an error otherwise as soon as `k > 0`
  (with `k == 0` the probe loop never runs and the modulo is never evaluated). `confidence` also
  requires `k > 0`, because it divides by `k`.
- **Short images.** The source's `ingest` does not check the length of the image.
  In the model, `Ingest` accepts every image that supplies at least `size` bits,
  as the source does, longer images included. A shorter image returns
  `ok == false` and leaves the filter unchanged. The source would instead keep a
  vector shorter than `size`, and a later probe past its end would raise an
  index error.

## Model

| member | source | states |
|---|---|---|
| `Bloom.BloomFilter.constructor` | bloom.py:9-16 | a fresh filter has exactly `size` bits, all cleared, and keeps `size`, `k` and both hash functions as given |
| `Bloom.Probing.Probes` | bloom.py:23-26 | an item has exactly k probe positions, and each one lies in `[0, size)` |
| `Bloom.DegenerateSecondHash` | bloom.py:23-26 | if the second hash is a multiple of `size`, all k probes land on the one position `h1 mod size` |
| `Bloom.BloomFilter.Add` | bloom.py:22-26 | the probe bits of the item are set afterwards, every other bit is unchanged, and the length stays the same |
| `Bloom.GrowsOnly` | bloom.py:25-26 | adding never clears a bit, and the number of set bits never goes down |
| `Bloom.WithProbesIdempotent` | bloom.py:22-26 | adding the same item twice gives the same bit vector as adding it once |
| `Bloom.BloomFilter.Adds` | bloom.py:28-30 | the bits afterwards are those given by adding each item in turn, in order |
| `Bloom.WithItemsGrows` | bloom.py:28-30 | adding a batch never clears a bit |
| `Bloom.WithItemsAt` | bloom.py:28-30 | after a batch, a bit is set exactly when it was set before or is a probe position of some item in the batch |
| `Bloom.WithItemsOrderFree` | bloom.py:28-30 | the bits after a batch depend only on which items it holds: order and repeats make no difference |
| `Bloom.AllSetGrows` | bloom.py:31-37 | once every probe bit of an item is set, it stays set as more bits are set, so `check` stays true |
| `Bloom.EnteredItemsAreFound` | bloom.py:22-37 | no false negatives: every item of a batch has all its probe bits set afterwards, whatever the filter held before |
| `Bloom.BloomFilter.Check` | bloom.py:31-37 | the result is true exactly when every probe bit of the item is set, and false as soon as one of them is cleared |
| `Bloom.BloomFilter.Confidence` | bloom.py:38-53 | the score is the number of probes that hit a set bit divided by k (a repeated position counts once per probe); it lies in [0, 1]; it is 1 exactly when `Check` would return true |
| `Bloom.HitsAllIffAllSet` | bloom.py:31-53 | all k probes hit exactly when every probe bit is set, so a full confidence score and a successful membership test agree |
| `Bloom.HitsMonotone` | bloom.py:47-53 | setting more bits never lowers an item's hit count, so its confidence never goes down as items are added |
| `Bloom.QueriesSeeOnlyPrefix` | bloom.py:31-53 | `check` and `confidence` read only the first `size` bits of the vector |
| `Bloom.BloomFilter.Dump` | bloom.py:20-21 | the image has one byte per started group of eight bits, and reading it back gives the vector followed only by zero padding |
| `Bloom.BloomFilter.Ingest` | bloom.py:17-19 | the vector is replaced by all the bits of the image; an image with fewer than `size` bits is refused and the filter is unchanged |
| `Bloom.ReloadPreservesQueries` | bloom.py:17-21 | writing the vector out and reading it back gives the same membership result and the same confidence for every string |
| `Bloom.CorpusRoundTrip` | corpus_bloom.py:8-16 | fill a 2^22-bit, 12-probe filter from a word list, dump it, and ingest the image into a fresh filter with the same parameters: every listed word is still found |
| `Packing.PackByte` | bloom.py:20-21 | reading back the byte that holds eight bits gives those eight bits |
| `Packing.UnpackPack` | bloom.py:17-21 | reading back the image of a vector gives the vector, then zero bits up to the next multiple of eight |
| `Packing.PackUnpack` | bloom.py:17-21 | rewriting an image that was read in gives the same image |
| `Packing.WholeBytesRoundTrip` | bloom.py:17-21 | if the length is a multiple of eight, as it is for 2^22 bits, `ingest(dump())` restores the vector exactly |
| `Trigrams.Trigram.constructor` | trigram_interfacer.py:8-13 | for an ASCII text (the transliterated input), stores the text and the verbose flag, which is false when not given; the trigram set is the text's trigrams whatever the flag is |
| `Trigrams.Trigram.GetTrigrams` | trigram_interfacer.py:19-22 | adds to the set exactly the lower-cased slices `data[i..i+3]` for every start position `i < len/3` |
| `Trigrams.TrigramsShape` | trigram_interfacer.py:20-21 | every trigram has exactly three characters and no upper-case ASCII letter |
| `Trigrams.TrigramsSize` | trigram_interfacer.py:20 | there are at most `len/3` trigrams, and none if the text has fewer than three characters |
| `Trigrams.TrigramsReadOnlyPrefix` | trigram_interfacer.py:20-21 | two texts of the same length that agree on their first `len/3 + 2` characters have the same trigrams, because the bound `len//3` leaves the rest of the text unread |
| `Trigrams.Trigram.Call` | trigram_interfacer.py:24-25 | returns the value of the stored trigram set and changes nothing |

## Left out

- Hash functions: `fnv_1a` is a foreign library that is not part of this
  model. It is replaced by two caller-supplied total functions
  `string -> nat`.
- Bloom.BloomFilter.Confidence: returns an exact `real` where the source returns
  a float `c / k`. Floating-point rounding is not modelled.
- Bloom.BloomFilter.Ingest: refuses an image too short to supply `size` bits.
  The source instead loads it silently, and later probes past its end fail.
- Negative `size` or `k`: both are `nat` here. Python would accept negative
  values: `bitarray("0" * size)` would be empty and `range(k)` would do nothing.
- File objects and bit order: `dump` and `ingest` work on byte sequences, not
  files. The bit order is fixed at most significant bit first, which is the bit
  array library's default.
- Deriving `k` from an expected item count or from `log2(size)`: the
  constructor takes `k` as given, as in the source.
- Flower and flower_power (`flowers.py`): file reading and floating-point
  logarithmic averaging. `flowers.most_flower` is not part of this model.
- Scripts and reports (`spy_analysis.py`, `export_spy_data.py`,
  `json_to_csv_converter.py`, `how_french_is_it.py`, `tests/is_it_a_word.py`,
  `corpus_read.py`, `corpus_bloom.py`): file, console and JSON/CSV I/O, timing,
  floating-point statistics. `corpus_read.py` and `tests/is_it_a_word.py` only
  ingest a saved image and query it; `spy_analysis.py`, `export_spy_data.py`
  and `how_french_is_it.py` build `Flower` filters and query their confidence.
  Only `corpus_bloom.py` adds a word list, dumps the image and reads it back;
  `CorpusRoundTrip` models that sequence.
- Transliteration: `unidecode` is a foreign call. The model's input text is the
  already transliterated string, so ASCII lower-casing is all that `lower()`
  does to it.
- Logging: `_log` only prints when `verbose` is set. It is left out, and the
  trigram set does not depend on the flag.
- Trigrams.Trigram.Call: returns the trigram set as a value. The source returns
  the set object itself, so a caller that changes the returned set also changes
  the object's `trigrams`; that aliasing is not modelled.
- `tests/trigram_interfacer.py` is the same code as `trigram_interfacer.py`, and
  the same model covers it.
