# Fasttext embedding: a verified model

This project models the `Fasttext` token embedding of mindnlp
(`mindnlp/modules/embeddings/fasttext_embedding.py`). The model covers five parts:

- how `from_pretrained` checks its arguments, names the archive and the vector file, reads the
  vector file and adds the two special rows;
- how `__init__` takes the table's shape;
- how `construct` looks ids up: flatten, gather, reshape;
- how `save` writes the configuration mapping and the vector file: a 30-space placeholder line,
  one line per token, then `seek(0)` and the `"<nums> <dims>"` header;
- how `load` checks that both saved files exist, reads them and rebuilds the layer.

Vector entries are opaque field strings. A file is its text. The vocabulary is its token list in
id order.

Modules, one file each:

- `outcomes.dfy` (`Outcomes`): `Option`, `Result` and one error constructor per raise site.
- `strings.dfy` (`Strings`): the Python string behaviour the code relies on. That is
  `str.isspace`, `str.split()` and `str.split(maxsplit=1)`, line iteration over a file opened in
  text mode (universal newlines), `' '.join`, `str()` of an int, and `re.sub(r".+/", "", s)`.
- `text_file.dfy` (`TextFiles`): a file opened for writing. It is a class over a growing
  `array<char>` with a write position, so `seek(0)` followed by `write` overwrites in place.
- `tensors.dfy` (`Tensors`): tensors as a shape plus row-major data, with reshape and
  axis-0 gather.
- `vector_file.dfy` (`VectorFile`): the vector-file reader and writer. Each loop is a method
  proved equal to a specification function, and the save-then-read round trip is proved.
- `fasttext.dfy` (`FasttextEmbedding`): the layer itself.

Two behaviours of the code worth stating plainly:

- Special rows. `from_pretrained` inserts the random row first and the zero row second
  (`fasttext_embedding.py` lines 118-123). `Vocab.from_list` keeps `special_tokens` in their
  given order, and the default is `("<pad>", "<unk>")`. So by default `"<pad>"` gets the random
  row and `"<unk>"` the zero row (`FasttextEmbedding.DefaultSpecialRows`).
- Ragged rows. `np.array` over rows of different lengths raises (line 126); the model reports
  `InhomogeneousRows`.

## Model

| member | source | states |
|---|---|---|
| Strings.SplitOnceAgreesWithWords | mindnlp/modules/embeddings/fasttext_embedding.py:114 | `split(maxsplit=1)` yields min(2, number of words) parts. The first part is the first word. The words of the second part are all the other words, in order. |
| Strings.WordsOfJoin | mindnlp/modules/embeddings/fasttext_embedding.py:178 | Splitting `' '.join(fs)` on whitespace gives `fs` back when every item is a non-empty, whitespace-free string. Whatever follows after whitespace is split on its own. |
| Strings.LinesConcat | mindnlp/modules/embeddings/fasttext_embedding.py:113 | The lines a file yields, joined, are the whole text. |
| Strings.LinesShape | mindnlp/modules/embeddings/fasttext_embedding.py:113 | Every line is non-empty and holds a `'\n'` at most as its last character. |
| Strings.LinesEnd | mindnlp/modules/embeddings/fasttext_embedding.py:113 | Every line but the last ends with `'\n'`. |
| Strings.LinesAppend | mindnlp/modules/embeddings/fasttext_embedding.py:208 | Text made of complete lines, followed by more text, yields its own lines and then the lines of the rest. |
| Strings.UniversalNewlinesKeeps | mindnlp/modules/embeddings/fasttext_embedding.py:207 | In text mode, a file without `'\r'` reads back unchanged. |
| Strings.DecimalRoundTrip | mindnlp/modules/embeddings/fasttext_embedding.py:182 | `str(n)` of a non-negative int reads back as `n`. |
| Strings.StripPathPrefixIsBaseName | mindnlp/modules/embeddings/fasttext_embedding.py:101 | Take a one-line URL whose directory part is at least two characters and ends with `/`. The greedy `.+/` substitution leaves exactly the part after the last `/`. |
| TextFiles.OverwriteAt | mindnlp/modules/embeddings/fasttext_embedding.py:181-182 | Writing `s` at position `p` replaces characters `p .. p+|s|-1` and grows the file where `s` runs past its end. Every other character stays. |
| TextFiles.TextFile.constructor | mindnlp/modules/embeddings/fasttext_embedding.py:173 | A file opened with `'w'` is empty and positioned at its start. |
| TextFiles.TextFile.Write | mindnlp/modules/embeddings/fasttext_embedding.py:174-182 | `file.write(s)`: the new content is the old content overwritten by `s` at the old position, and the position moves past `s`. |
| TextFiles.TextFile.Rewind | mindnlp/modules/embeddings/fasttext_embedding.py:181 | `file.seek(0)`: the content is unchanged and the next write starts at 0. |
| Tensors.ProductAppend | mindnlp/modules/embeddings/fasttext_embedding.py:140 | Appending an axis of length `d` to a shape multiplies its element count by `d`. |
| Tensors.GatherLength | mindnlp/modules/embeddings/fasttext_embedding.py:142 | Gathering `n` in-range ids from a table of `d`-field rows gives `n*d` entries. |
| Tensors.GatherBlocks | mindnlp/modules/embeddings/fasttext_embedding.py:142 | Block `k` (entries `k*d .. (k+1)*d-1`) of the gathered data is the row `ids[k]`, for every `k`. |
| VectorFile.ParseLine | mindnlp/modules/embeddings/fasttext_embedding.py:114-116 | A line unpacks exactly when it has at least two words. The token is the first word and the fields are the remaining words. Otherwise the unpack error reports the number of parts. |
| VectorFile.ParseLinesMeaning | mindnlp/modules/embeddings/fasttext_embedding.py:112-116 | Reading succeeds iff every line has two words. It then yields one token and one row per line, in file order. Otherwise the error is the one of the first line that does not split. |
| VectorFile.ReadVectors | mindnlp/modules/embeddings/fasttext_embedding.py:110-116 | The reading loop skips the first line and returns exactly what the specification `ParseVectors` gives. That covers both the collected tokens and rows and the first error. |
| VectorFile.WriteVectors | mindnlp/modules/embeddings/fasttext_embedding.py:173-182 | The save loop succeeds iff the vocabulary list covers the table. It then leaves the header written over the placeholder line followed by one saved line per row. Otherwise it stops with the lines written before the missing index. |
| VectorFile.HeaderOverwriteKeepsRest | mindnlp/modules/embeddings/fasttext_embedding.py:181-182 | The header overwrite makes the first `len(header)` characters the header. Every later character stays as it was, including the rest of the placeholder and the whole body. |
| VectorFile.SavedTextLayout | mindnlp/modules/embeddings/fasttext_embedding.py:174-182 | When the header is at most 30 characters, the saved file is: the header, the remaining placeholder spaces, `'\n'`, then the body. |
| VectorFile.SavedLineParses | mindnlp/modules/embeddings/fasttext_embedding.py:179 | A saved line reads back as its token and its fields. |
| VectorFile.SavedLinesAt | mindnlp/modules/embeddings/fasttext_embedding.py:175-179 | Line `i` of the saved lines is the line written for row `i`. |
| VectorFile.BodyLines | mindnlp/modules/embeddings/fasttext_embedding.py:175-179 | The written body splits into exactly the saved lines, one per row, in order. |
| VectorFile.BodyHasNoReturn | mindnlp/modules/embeddings/fasttext_embedding.py:179 | A body of whitespace-free tokens and fields holds no `'\r'`. |
| VectorFile.SavedDataLines | mindnlp/modules/embeddings/fasttext_embedding.py:208 | The lines after the first line of a saved file are the lines of the body. |
| VectorFile.SaveThenRead | mindnlp/modules/embeddings/fasttext_embedding.py:173-182 | Reading a saved vector file gives back the same field strings and, in the same order, the tokens of the first `vocab_size` ids. A vocabulary list longer than the table saves as well, and its extra tokens are not written. This needs whitespace-free tokens and fields, at least one field per row, and a header of at most 30 characters. |
| FasttextEmbedding.Init | mindnlp/modules/embeddings/fasttext_embedding.py:61-72 | `vocab_size` and `_embed_dim` are the row and column counts of the table, and every field is stored as given. It fails exactly when the table has no rows (IndexError on its second axis) or, after that, when `dropout` is null or a string (TypeError in `1 - dropout`). |
| FasttextEmbedding.ArchiveNames | mindnlp/modules/embeddings/fasttext_embedding.py:40-43 | Every source URL is the download directory followed by `wiki-news-300d-<name>.vec.zip`. |
| FasttextEmbedding.DownloadIsArchiveOfVecFile | mindnlp/modules/embeddings/fasttext_embedding.py:100-102 | For every source name, the downloaded file name is the vector file name `wiki-news-300d-<name>.vec` plus `.zip`. |
| FasttextEmbedding.Insert | mindnlp/modules/embeddings/fasttext_embedding.py:119-120 | `list.insert(i, x)` puts `x` at `i` (at the end when `i` is past it). Items before stay and items after shift up by one. |
| FasttextEmbedding.InsertSpecialRows | mindnlp/modules/embeddings/fasttext_embedding.py:118-123 | The result always has n+2 rows. With `special_first`, rows 0 and 1 are the random and zero rows and parsed row i moves to i+2. Otherwise parsed rows keep indices 0..n-1, and rows n and n+1 are the random and zero rows. |
| FasttextEmbedding.FromList | mindnlp/modules/embeddings/fasttext_embedding.py:125 | The special tokens come before or after the file's tokens, which keep their order. |
| FasttextEmbedding.SpecialRowsFollowSpecialTokens | mindnlp/modules/embeddings/fasttext_embedding.py:118-125 | The vocabulary and the table line up. The first special token has the random row's id and the second has the zero row's id. Every parsed token has its own row's id. |
| FasttextEmbedding.DefaultSpecialRows | mindnlp/modules/embeddings/fasttext_embedding.py:76-125 | With the default special tokens, `"<pad>"` has the random row and `"<unk>"` the zero row. |
| FasttextEmbedding.RectangularWithSpecialRows | mindnlp/modules/embeddings/fasttext_embedding.py:118-126 | The table forms a matrix exactly when every parsed row has `dims` fields. |
| FasttextEmbedding.FromPretrained | mindnlp/modules/embeddings/fasttext_embedding.py:75-127 | The parameters have the source's defaults: `name="1M"`, `dims=300`, `special_tokens=("<pad>", "<unk>")`, `special_first=False`. Checks happen in order: unknown name, then unsupported dims (both before any file is read), then a missing vector file, then a line that does not unpack, then ragged rows. Otherwise the layer has n+2 rows of `dims` fields, the special rows placed as above. Its vocabulary is from `Vocab.from_list` and its hyperparameters are `True, 0.5, True` with no kwargs. The vocabulary returned beside the instance is `r.value.vocab`. |
| FasttextEmbedding.Construct | mindnlp/modules/embeddings/fasttext_embedding.py:139-143 | The output shape is the ids' shape with `embed_dim` appended, and the output has `len(ids) * embed_dim` entries. |
| FasttextEmbedding.ConstructWf | mindnlp/modules/embeddings/fasttext_embedding.py:140-143 | The output holds one entry per index of its shape. |
| FasttextEmbedding.ConstructGathers | mindnlp/modules/embeddings/fasttext_embedding.py:141-142 | The flat output is the gathered rows of the flattened ids. |
| FasttextEmbedding.LookupBlock | mindnlp/modules/embeddings/fasttext_embedding.py:139-143 | Block `k` of the flat output is the table row of the `k`-th id. |
| FasttextEmbedding.SaveConfig | mindnlp/modules/embeddings/fasttext_embedding.py:165-168 | The saved configuration has the keys of `kwargs` plus the three parameters. The parameters come from the instance and every other key keeps its `kwargs` value. |
| FasttextEmbedding.Save | mindnlp/modules/embeddings/fasttext_embedding.py:146-182 | Writes that configuration and the vector file. It succeeds iff the vocabulary list covers every row. Otherwise it raises IndexError after writing the lines before the missing index. The instance is a value and does not change. |
| FasttextEmbedding.InitFromConfig | mindnlp/modules/embeddings/fasttext_embedding.py:218 | A configuration key naming a positional parameter raises TypeError. Otherwise the parameters come from the configuration or their defaults, and the remaining keys become `kwargs`. It fails exactly on a repeated positional name, an empty table, or a null or string `"dropout"`. |
| FasttextEmbedding.Load | mindnlp/modules/embeddings/fasttext_embedding.py:198-218 | A missing configuration file, and then a missing vector file, fail the assertion. Otherwise the result is the read vector file passed through the constructor with the configuration. |
| FasttextEmbedding.SaveLoadRoundTrip | mindnlp/modules/embeddings/fasttext_embedding.py:146-218 | Loading what `save` wrote gives back the same layer: vocabulary, rows, shape, hyperparameters and `kwargs`. This needs the conditions of `SaveThenRead` and a vocabulary with one token per row. |

## Left out

- Downloading and unzipping (`cache_file`, `unzip`), `os.path.join`, `os.path.exists`, `os.makedirs` and the root folder: I/O. `FromPretrained` takes the cache folder's files as a map from name to text, and `Load` takes the two saved files as optional values.
- Float parsing by `np.fromstring`, `str()` of float32 values, and `.astype(np.float32)`: floating point. Fields are opaque strings, `np.fromstring(s, sep=' ')` is the whitespace split of `s`, and `str()` of a field is the field itself.
- `np.random.rand(dims)`: randomness. The random row is a parameter of `dims` fields.
- FasttextEmbedding.FromList: does not model `Vocab.from_list` id assignment or duplicate tokens, because `Vocab` is foreign code. The vocabulary is the token list in id order. In `save`, `list(vocab.keys())` is that same list.
- FasttextEmbedding.Construct: leaves out the dropout on the output (`nn.Dropout`, `train_state`) and `requires_grad`, which belong to the framework. Out-of-range ids are a precondition because `ops.gather` is foreign code.
- JSON encoding, `indent=2` and decoding: the configuration is a map from names to values, assumed to survive `json.dump` and `json.load` unchanged. Nested JSON values are not modelled.
- Logging and the module-level `setLevel` call: no effect on results.
- `super().__init__` (TokenEmbedding) is not part of this model. Nor is the `_word_vocab` getter `get_word_vocab`, which is taken to return the vocabulary.
- FasttextEmbedding.Init: models the TypeError of `1 - dropout` at line 69 but not the checks `nn.Dropout` itself makes on `keep_prob` (its type and its range), which belong to the framework. A numeric or boolean `dropout` is accepted whatever its value.
- FasttextEmbedding.InitFromConfig: the same holds for a `"dropout"` taken from the configuration.
- Arguments of the wrong Python type (a non-string `name`, a non-integer `dims`, non-tensor ids) are excluded by the Dafny types.
- TextFiles.TextFile.Write: characters, not encoded UTF-8 bytes, so `seek(0)` positions are character offsets. Newline translation on write (Windows `\r\n`) is not modelled.
- VectorFile.SaveThenRead: the round trip needs a header of at most 30 characters. A longer header overwrites the start of the first token line; `HeaderOverwriteKeepsRest` still states what is written.
- VectorFile.SaveThenRead: needs at least one field per row. A row with no fields is saved as `"token \n"`, which fails to unpack on reading.
- VectorFile.ParseLine: a blank line (one with no words) fails to unpack, as in the code.
