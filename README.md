# Tacotron2 data-pipeline helpers, verified in Dafny

This project models the exactly-specified text and sequence helpers of the
Tacotron2 text-to-speech training script `tacotron2_enhanced.py` and proves
what they do:

- `load_ljs`, the manifest loader: every line of `list.txt` is stripped of
  surrounding whitespace and split on `|`. A line that gives exactly two
  fields becomes a (file name, transcript) record. Any other line is skipped
  with a printed notice. (`manifest.dfy`, module `Manifest`.)
- `normalize_text`: lower-case the text, then replace every `.` with a
  space. (`normalize.dfy`, module `Normalize`.)
- The token padding: `pad_sequences(..., maxlen=max_len, padding='post')` in
  `data_generator`, and `np.pad(seq, (0, max_len_seq - len(seq)))` in
  `generate_mel`. (`padding.dfy`, module `Padding`.)
- One pass of `data_generator`'s outer loop:
  `for i in range(0, len(sequences), batch_size)` slices `sequences[i:i+B]`
  and `mels[i:i+B]` in lockstep and pads the token window. Also
  `steps_per_epoch = int(np.ceil(len(sequences) / batch_size))`, which the
  script computes twice (lines 181 and 216) in the same way.
  (`batching.dfy`, module `Batching`.)
- The learning-rate `scheduler`, with its decay factor left abstract.
  (`schedule.dfy`, module `Schedule`.)

Python errors on the modelled paths are values of `Outcome.Result`
(`outcome.dfy`):
- `n / 0` raises `ZeroDivisionError`.
- `range(0, n, 0)` raises `ValueError`.
- `np.pad` with a negative width raises `ValueError`.

Two consequences of the code worth stating:
- Line 108 replaces each `.` with a space, so `normalize_text` keeps the
  length of ASCII input; line 107's `lower()` can lengthen other text
  (U+0130 lower-cases to two code points).
- `np.pad` at line 238 raises `ValueError` for a sequence longer than
  `max_len_seq`, while `pad_sequences` at line 147 truncates a sequence
  longer than its own `maxlen` (500). A sequence of 101 to 500 tokens is
  therefore padded untruncated by the generator but makes `generate_mel`
  (default `max_len_seq = 100`) fail.

## Model

| member | source | states |
|---|---|---|
| `Manifest.IsSpace` | tacotron2_enhanced.py:99 | the whitespace set `strip()` removes (Python's `str.isspace`): it includes space, tab, newline, carriage return, vertical tab and form feed, and excludes the bar, digits and ASCII letters |
| `Manifest.StripLeft` | tacotron2_enhanced.py:99 | the left half of `strip()`; never longer than its input (its full characterisation is `StripLeftSpec`) |
| `Manifest.StripRight` | tacotron2_enhanced.py:99 | the right half of `strip()`; never longer than its input (its full characterisation is `StripRightSpec`) |
| `Manifest.Strip` | tacotron2_enhanced.py:99 | `line.strip()`; never longer than its input |
| `Manifest.Split` | tacotron2_enhanced.py:99 | `split` on the bar, one separator character; always at least one field, as Python gives for the empty string |
| `Manifest.Join` | tacotron2_enhanced.py:99 | the separator join used to state the round trips; a join of `n >= 1` fields holds at least `n - 1` separators |
| `Manifest.ParseLine` | tacotron2_enhanced.py:99-103 | the per-line logic: the record appended, or nothing where the notice is printed; neither field of a record holds a bar |
| `Manifest.KeptRecords` | tacotron2_enhanced.py:97-104 | the list `load_ljs` returns, the kept records in line order; never more records than lines |
| `Manifest.StripLeftSpec` | tacotron2_enhanced.py:99 | the left half of `strip()` drops exactly a whitespace prefix (Python's `isspace` set), and what is left starts with no whitespace |
| `Manifest.StripRightSpec` | tacotron2_enhanced.py:99 | the right half of `strip()` drops exactly a whitespace suffix, and what is left ends with no whitespace |
| `Manifest.StripPadded` | tacotron2_enhanced.py:99 | `strip()` of whitespace + core + whitespace is the core, whenever the core neither starts nor ends with whitespace |
| `Manifest.StripIdempotent` | tacotron2_enhanced.py:99 | stripping a stripped line changes nothing |
| `Manifest.SplitLength` | tacotron2_enhanced.py:99-100 | splitting on the bar gives one more field than the line has bar characters |
| `Manifest.SplitPiecesFree` | tacotron2_enhanced.py:99 | no field produced by splitting on the bar contains a bar |
| `Manifest.JoinSplit` | tacotron2_enhanced.py:99 | joining the fields of a split with the separator gives back the string |
| `Manifest.SplitJoin` | tacotron2_enhanced.py:99 | splitting the join of one or more separator-free fields gives back the fields (the join of no fields is `""`, which splits into one empty field) |
| `Manifest.KeptIff` | tacotron2_enhanced.py:99-103 | a line is kept if and only if its stripped form contains exactly one bar |
| `Manifest.BlankSkipped` | tacotron2_enhanced.py:99-103 | a blank or whitespace-only line is skipped |
| `Manifest.ParsedJoin` | tacotron2_enhanced.py:99-101 | a kept record's fields joined with a bar equal the stripped line, and neither field contains a bar |
| `Manifest.ParseWritten` | tacotron2_enhanced.py:96-101 | a line written as file name, bar, transcript, with any whitespace around it such as the trailing newline, is read back as exactly that record, when neither field holds a bar, the file name does not start with whitespace and the transcript does not end with whitespace (otherwise `strip()` removes that whitespace too) |
| `Manifest.KeptAppend` | tacotron2_enhanced.py:97-104 | the records of `xs + ys` are those of `xs` followed by those of `ys`, so relative order is preserved |
| `Manifest.KeptSingle` | tacotron2_enhanced.py:98-103 | a single line contributes its own record, or nothing when it is skipped |
| `Manifest.KeptCount` | tacotron2_enhanced.py:97-104 | there are at most as many records as lines, and equally many exactly when every line parses |
| `Manifest.KeptMembership` | tacotron2_enhanced.py:97-104 | a record is in the result if and only if some line parses to it |
| `Manifest.LoadLjs` | tacotron2_enhanced.py:93-104 | the loop's result is the kept records of the lines in order, and the number of printed skip notices plus the number of records is the number of lines |
| `Normalize.LowerChar` | tacotron2_enhanced.py:107 | `lower()` on an ASCII character maps `A`-`Z` to `a`-`z` (code point + 32), leaves every other character alone, and never yields an upper-case letter |
| `Normalize.Lower` | tacotron2_enhanced.py:107 | `text.lower()` on ASCII text: same length, ASCII, and no upper-case letter in the result |
| `Normalize.Replace` | tacotron2_enhanced.py:108 | `text.replace(c, d)` for single characters: same length, and no `c` left when `c` differs from `d` |
| `Normalize.LowerAt` | tacotron2_enhanced.py:107 | `lower()` on ASCII text keeps the length and lower-cases each character in place |
| `Normalize.ReplaceAt` | tacotron2_enhanced.py:108 | `replace` of one character by another keeps the length and substitutes in place |
| `Normalize.NormalizeText` | tacotron2_enhanced.py:106-109 | the normalized text has the input's length and is ASCII |
| `Normalize.NormalizeAt` | tacotron2_enhanced.py:106-109 | each output character is a space where the input had `.`, and otherwise the lower-case form of the input character |
| `Normalize.NormalizeClean` | tacotron2_enhanced.py:106-109 | the output contains no `.` and no upper-case letter |
| `Normalize.NormalizeIdempotent` | tacotron2_enhanced.py:106-109 | normalizing normalized text returns it unchanged |
| `Normalize.NormalizeExample` | tacotron2_enhanced.py:106-109 | `"A.B."` normalizes to `"a b "` |
| `Padding.PadPost` | tacotron2_enhanced.py:147 | a padded row has exactly `max_len` tokens; a shorter sequence stays at the front followed by zeros; a longer one keeps its last `max_len` tokens |
| `Padding.PadSequences` | tacotron2_enhanced.py:147 | the padded batch has one row per sequence, each of exactly `max_len` tokens, row `i` being sequence `i` padded |
| `Padding.NpPad` | tacotron2_enhanced.py:238 | the pad succeeds exactly when the sequence is no longer than `max_len_seq`, and otherwise fails with a negative-width error; on success the result has length `max_len_seq`, its prefix is the sequence and every later entry is 0 |
| `Padding.NpPadIsPadPost` | tacotron2_enhanced.py:238 | where `np.pad` succeeds it agrees with the post-padding of `pad_sequences` |
| `Batching.StepsPerEpoch` | tacotron2_enhanced.py:181 | a zero batch size is a division by zero; otherwise the result `s` is the ceiling of `n / B`, that is `s * B >= n > (s - 1) * B` |
| `Batching.CeilUnique` | tacotron2_enhanced.py:181 | that ceiling is the only count with those two bounds |
| `Batching.PySlice` | tacotron2_enhanced.py:143-144 | Python slicing with the bounds clamped to the list, element by element |
| `Batching.WindowsFrom` | tacotron2_enhanced.py:142-144 | the slices `s[i:i+B]` at the offsets `range(i, n, B)` visits; empty exactly when `i >= n`, and no window longer than `B` |
| `Batching.BatchesFrom` | tacotron2_enhanced.py:142-150 | the batches yielded from offset `i` on; none exactly when `i` is at or past the end of the token list, each half holds at most `B` rows, and every token row has length `max_len` |
| `Batching.DataGeneratorPass` | tacotron2_enhanced.py:140-150 | a zero batch size makes `range` fail; otherwise the loop yields exactly the batches of the specification of one pass, in order |
| `Batching.WindowOffsets` | tacotron2_enhanced.py:142 | the windows start at offsets `0, B, 2B, ...`, all strictly below `N`, and their number equals `steps_per_epoch` |
| `Batching.WindowSizes` | tacotron2_enhanced.py:142-144 | every window holds between 1 and `B` elements, and only the last can be shorter than `B` |
| `Batching.ConcatWindows` | tacotron2_enhanced.py:142-144 | concatenating the windows in order reproduces the list |
| `Batching.BatchesAreWindows` | tacotron2_enhanced.py:142-150 | batch `k` is the padded token window `k` together with mel window `k`, both cut at the token list's offsets |
| `Batching.PassShape` | tacotron2_enhanced.py:140-150 | a pass yields `steps_per_epoch` batches; batch `k` covers the index range from `k*B` in both lists, its token rows all have length `max_len`, and it has as many token rows as mels when the two lists have equal length |
| `Schedule.Scheduler` | tacotron2_enhanced.py:153-157 | `scheduler(epoch, lr)`: the rate is unchanged before epoch 10, and with a decay factor in [0, 1] a non-negative rate is never raised |
| `Schedule.RateAt` | tacotron2_enhanced.py:153-157 | the rate in force in epoch `e`, assuming (as the library's `LearningRateScheduler` does; not a line of this file) that `scheduler` is called at the start of every epoch with the current rate; it is the initial rate before epoch 10, and stays between 0 and the initial rate for a decay factor in [0, 1] |
| `Schedule.RateClosedForm` | tacotron2_enhanced.py:153-157 | the rate is the initial rate in epochs 0 to 9, and the initial rate times `decay^(e-9)` in epoch `e >= 10` |
| `Schedule.RateNonIncreasing` | tacotron2_enhanced.py:153-157 | with a non-negative initial rate and a decay factor in [0, 1], the rate never rises from one epoch to the next |

## Left out

- `PreNet`, `PostNet` and `Tacotron2` (lines 23-84): Keras layers, recurrent cells and convolutions computing on floating point.
- `audio_to_mel`, `normalize_mel`, `mel_to_audio`: floating-point signal processing in librosa and numpy.
- `Tokenizer.fit_on_texts` and `text_to_sequences`: the library's filtering and indexing rules are not visible. Token ids are given integer sequences.
- `preprocess_dataset` and the module-level calls that build the lists, fit the tokenizer and train: they compose the pieces above with I/O and the tokenizer.
- File opening and `readlines` in `load_ljs`: the model takes the list of lines. `readlines`' newline handling is not modelled. The printed notice is modelled only as a count of skipped lines.
- Mel padding and truncation (line 148): 2-D float arrays. A batch carries its mel window unpadded, and mels are a type parameter. Line 150 yields the padded mels twice, as decoder input and as target; `Batching.Batch` holds them once.
- The endless `while True` of `data_generator` and its lazy yielding: the model is one pass that returns the batches in order.
- `Batching.DataGeneratorPass`: for an empty token list the model's pass returns no batches and `steps_per_epoch` is 0, while the real generator loops forever over an empty `range` and never yields.
- `compile`/`fit`, plotting, `sf.write`, IPython playback, and the remaining lines of `generate_mel` (tokenizing, `expand_dims`, the all-zero decoder input, `predict`).
- `Normalize.NormalizeText`: restricted to ASCII input. Python's `lower()` is not a one-for-one character map on all of Unicode, so non-ASCII text is not modelled.
- `Padding.PadPost`: the truncation direction for sequences longer than `max_len` is the library's `truncating='pre'` default. The file does not state it. For `max_len = 0` the model returns empty rows, where the library raises `ValueError` on any sequence of two or more tokens. A negative `max_len` is not modelled, because `maxLen` is a `nat`; there the library raises `ValueError` while building the output array.
- `Batching.StepsPerEpoch`: the model uses exact integer ceiling division. The script divides in floating point, which gives the same result for list lengths below 2^53. Negative batch sizes are not modelled, because batch sizes are `nat`.
- `Batching.DataGeneratorPass`: negative batch sizes are not modelled. The `int32` conversion of padded tokens is not modelled.
- `Schedule.RateClosedForm`: the factor `exp(-0.1)` is an abstract real `decay`, and floating-point rounding is not modelled. The per-epoch calling of `scheduler` with the current rate is the training callback's behaviour, which is not part of this file.
