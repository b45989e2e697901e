/** The Fasttext embedding layer: a vocabulary, a table with one row of
    vector fields per vocabulary id, and the hyperparameters the layer was
    built with. It is built from a pretrained vector file or from a folder
    written by save, looks rows up by id, and saves itself as a
    configuration mapping and a vector file. */
module FasttextEmbedding {
  import opened Outcomes
  import opened Strings
  import opened TextFiles
  import opened Tensors
  import opened VectorFile

  /** JSON_FILENAME and EMBED_FILENAME: the two files of a saved layer. */
  const JsonFileName: string := "fasttext_hyper.json"
  const EmbedFileName: string := "fasttext.txt"

  /** The directory every pretrained archive is downloaded from. */
  const Host: string := "https://dl.fbaipublicfiles.com/"
  const UrlPrefix: string := Host + "fasttext/vectors-english/"

  /** Fasttext.urls: the pretrained sources, by name. */
  const Urls: map<string, string> := map[
    "1M" := UrlPrefix + "wiki-news-300d-1M.vec.zip",
    "1M-subword" := UrlPrefix + "wiki-news-300d-1M-subword.vec.zip"
  ]

  /** Fasttext.dims: the supported vector lengths. */
  const Dims: seq<int> := [300]

  /** A hyperparameter value as it travels through the JSON configuration. */
  datatype Value = Null | Bool(b: bool) | Number(x: real) | Text(s: string)

  /** The keyword parameters of __init__ besides vocab and init_embed. */
  const Parameters: set<string> := {"requires_grad", "dropout", "train_state"}

  /** The positional parameters of __init__: cls(vocab, init_embed, ...) binds them. */
  const Positional: set<string> := {"self", "vocab", "init_embed"}

  /** The names that can never end up in **kwargs: every parameter of __init__. */
  const Reserved: set<string> := Positional + Parameters

  /** The fields an instance gets in __init__; none is assigned afterwards.
      The vocabulary is its token list in id order. */
  datatype Fasttext = Fasttext(
    vocab: seq<string>,
    embed: seq<seq<string>>,
    vocabSize: nat,
    embedDim: nat,
    requiresGrad: Value,
    dropoutP: Value,
    trainState: Value,
    kwargs: map<string, Value>)
  {
    /** The table has vocabSize rows of embedDim fields, dropout_p is a value
        __init__ could subtract from 1, and kwargs holds only names that no
        parameter of __init__ takes. */
    predicate Valid()
    {
      |embed| == vocabSize &&
      (forall i :: 0 <= i < |embed| ==> |embed[i]| == embedDim) &&
      Subtractable(dropoutP) &&
      kwargs.Keys !! Reserved
    }

    /** _embed_size: the shape of the table. */
    function EmbedSize(): (nat, nat)
    {
      (vocabSize, embedDim)
    }
  }

  /** 1 - v is defined: v is a bool or a number. 1 - None and 1 - "..."
      raise TypeError. */
  predicate Subtractable(v: Value)
  {
    v.Bool? || v.Number?
  }

  /** np.array over the rows is a matrix: all rows have the same length. */
  predicate Rectangular(rows: seq<seq<string>>)
  {
    forall i, j :: 0 <= i < |rows| && 0 <= j < |rows| ==> |rows[i]| == |rows[j]|
  }

  /** Fasttext.__init__: vocab_size and _embed_dim are the row and column
      counts of the table. A table without rows is a one-dimensional array,
      and reading its second axis raises IndexError. After that, the dropout
      layer is built from 1 - dropout, which raises TypeError for a null or
      string dropout. */
  function Init(vocab: seq<string>, rows: seq<seq<string>>, requiresGrad: Value,
                dropout: Value, trainState: Value, kwargs: map<string, Value>): (r: Result<Fasttext>)
    requires Rectangular(rows) && kwargs.Keys !! Reserved
    ensures r.Err? <==> rows == [] || !Subtractable(dropout)
    ensures r.Err? ==> r.error == (if rows == [] then EmptyTable else BadOperand)
    ensures r.Ok? ==> r.value.Valid() && r.value.vocab == vocab && r.value.embed == rows
    ensures r.Ok? ==> (r.value.vocabSize == |rows| &&
      forall i :: 0 <= i < |rows| ==> |rows[i]| == r.value.embedDim)
    ensures r.Ok? ==> (r.value.requiresGrad == requiresGrad && r.value.dropoutP == dropout &&
      r.value.trainState == trainState && r.value.kwargs == kwargs)
  {
    if rows == [] then Err(EmptyTable)
    else if !Subtractable(dropout) then Err(BadOperand)
    else Ok(Fasttext(vocab, rows, |rows|, |rows[0]|, requiresGrad, dropout, trainState, kwargs))
  }

  /** re.sub(r".+/", "", url): the name of the downloaded archive. */
  function DownloadFileName(url: string): string
  {
    StripPathPrefix(url)
  }

  /** f"wiki-news-{dims}d-{name}.vec": the name of the unpacked vector file. */
  function VecFileName(name: string, dims: nat): string
  {
    "wiki-news-" + Decimal(dims) + "d-" + name + ".vec"
  }

  lemma Decimal300()
    ensures Decimal(300) == "300"
  {
    assert Decimal(3) == "3";
    assert Decimal(30) == "30";
  }

  /** The URL prefix is a directory: it ends with '/' and holds no line break. */
  lemma UrlPrefixIsDirectory()
    ensures |UrlPrefix| >= 2 && UrlPrefix[|UrlPrefix| - 1] == '/' && '\n' !in UrlPrefix
  {
    assert '\n' !in Host && '\n' !in "fasttext/vectors-english/";
    NoneInAppend(Host, "fasttext/vectors-english/", '\n');
  }

  lemma VecFileName300(name: string)
    ensures VecFileName(name, 300) + ".zip" == "wiki-news-300d-" + name + ".vec.zip"
  {
    Decimal300();
  }

  lemma Archive1M()
    ensures Urls["1M"] == UrlPrefix + ("wiki-news-300d-" + "1M" + ".vec.zip")
  {
    assert "wiki-news-300d-" + "1M" + ".vec.zip" == "wiki-news-300d-1M.vec.zip";
  }

  lemma Archive1MSubword()
    ensures Urls["1M-subword"] == UrlPrefix + ("wiki-news-300d-" + "1M-subword" + ".vec.zip")
  {
    assert "wiki-news-300d-" + "1M-subword" + ".vec.zip" == "wiki-news-300d-1M-subword.vec.zip";
  }

  /** No source name, and no fixed part of an archive name, holds c. */
  lemma ArchivePartsAvoid(name: string, c: char)
    requires name in Urls && (c == '\n' || c == '/')
    ensures c !in "wiki-news-300d-" + name + ".vec.zip"
  {
    assert c !in "wiki-news-300d-" && c !in ".vec.zip";
    assert c !in name;
    NoneInAppend("wiki-news-300d-", name, c);
    NoneInAppend("wiki-news-300d-" + name, ".vec.zip", c);
  }

  /** The archive name of each source is its vector file name plus ".zip". */
  lemma ArchiveNames(name: string)
    requires name in Urls
    ensures Urls[name] == UrlPrefix + (VecFileName(name, 300) + ".zip")
    ensures '\n' !in VecFileName(name, 300) + ".zip" && '/' !in VecFileName(name, 300) + ".zip"
  {
    VecFileName300(name);
    ArchivePartsAvoid(name, '\n');
    ArchivePartsAvoid(name, '/');
    if name == "1M" {
      Archive1M();
    } else {
      Archive1MSubword();
    }
  }

  /** The archive of every pretrained source unpacks to the vector file the
      loader opens. */
  lemma DownloadIsArchiveOfVecFile(name: string)
    requires name in Urls
    ensures DownloadFileName(Urls[name]) == VecFileName(name, 300) + ".zip"
  {
    UrlPrefixIsDirectory();
    ArchiveNames(name);
    var file := VecFileName(name, 300) + ".zip";
    NoneInAppend(UrlPrefix, file, '\n');
    StripPathPrefixIsBaseName(UrlPrefix, file);
  }

  /** np.zeros((dims,)): a row of dims zero fields. */
  function Zeros(dims: nat): (z: seq<string>)
    ensures |z| == dims && forall j :: 0 <= j < dims ==> z[j] == "0.0"
  {
    seq(dims, _ => "0.0")
  }

  /** list.insert(i, x) for a non-negative i: x lands at index i, or at the
      end when i is past it, and the items from there on move up by one. */
  function Insert<T>(xs: seq<T>, i: nat, x: T): (r: seq<T>)
    ensures |r| == |xs| + 1
    ensures var k := if i < |xs| then i else |xs|;
      r[k] == x && r[..k] == xs[..k] && r[k + 1..] == xs[k..]
  {
    if i < |xs| then xs[..i] + [x] + xs[i..] else xs + [x]
  }

  /** The special rows of from_pretrained: the random row and then the zero
      row, inserted at the front when specialFirst holds and appended
      otherwise; the parsed rows keep their order. */
  method InsertSpecialRows(embeddings: seq<seq<string>>, random: seq<string>,
                           zeros: seq<string>, specialFirst: bool)
    returns (rows: seq<seq<string>>)
    ensures |rows| == |embeddings| + 2
    ensures specialFirst ==> (rows[0] == random && rows[1] == zeros &&
      forall i :: 0 <= i < |embeddings| ==> rows[i + 2] == embeddings[i])
    ensures !specialFirst ==> (rows[|embeddings|] == random && rows[|embeddings| + 1] == zeros &&
      forall i :: 0 <= i < |embeddings| ==> rows[i] == embeddings[i])
  {
    rows := embeddings;
    if specialFirst {
      rows := Insert(rows, 0, random);
      rows := Insert(rows, 1, zeros);
      forall i | 0 <= i < |embeddings| ensures rows[i + 2] == embeddings[i] {
        assert rows[2..][i] == rows[i + 2];
      }
    } else {
      rows := rows + [random];
      rows := rows + [zeros];
    }
  }

  /** Vocab.from_list(tokens, special_tokens, special_first), as the token
      list in id order. */
  function FromList(tokens: seq<string>, specialTokens: seq<string>, specialFirst: bool): (v: seq<string>)
    ensures |v| == |tokens| + |specialTokens|
    ensures specialFirst ==> v[..|specialTokens|] == specialTokens && v[|specialTokens|..] == tokens
    ensures !specialFirst ==> v[..|tokens|] == tokens && v[|tokens|..] == specialTokens
  {
    if specialFirst then specialTokens + tokens else tokens + specialTokens
  }

  /** The table from_pretrained assembles: the random row and the zero row
      in front of the parsed rows or after them. */
  function WithSpecialRows(rows: seq<seq<string>>, random: seq<string>, zeros: seq<string>,
                           specialFirst: bool): seq<seq<string>>
  {
    if specialFirst then [random, zeros] + rows else rows + [random, zeros]
  }

  /** With two special tokens, the vocabulary and the table line up: the
      first special token has the id of the random row and the second the
      id of the zero row, and every parsed token has the id of its own row. */
  lemma SpecialRowsFollowSpecialTokens(tokens: seq<string>, rows: seq<seq<string>>,
                                        specialTokens: seq<string>, specialFirst: bool,
                                        random: seq<string>, zeros: seq<string>)
    requires |tokens| == |rows| && |specialTokens| == 2
    ensures var v, table := FromList(tokens, specialTokens, specialFirst),
                            WithSpecialRows(rows, random, zeros, specialFirst);
      var first := if specialFirst then 0 else |rows|;
      |v| == |table| &&
      v[first] == specialTokens[0] && table[first] == random &&
      v[first + 1] == specialTokens[1] && table[first + 1] == zeros &&
      forall i :: 0 <= i < |tokens| ==>
        var id := if specialFirst then i + 2 else i; v[id] == tokens[i] && table[id] == rows[i]
  {
    var v := FromList(tokens, specialTokens, specialFirst);
    var table := WithSpecialRows(rows, random, zeros, specialFirst);
    if specialFirst {
      assert v[0] == v[..2][0] && v[1] == v[..2][1];
    } else {
      assert v[|rows|] == v[|tokens|..][0] && v[|rows| + 1] == v[|tokens|..][1];
    }
    forall i | 0 <= i < |tokens|
      ensures var id := if specialFirst then i + 2 else i; v[id] == tokens[i] && table[id] == rows[i]
    {
      if specialFirst {
        assert v[i + 2] == v[2..][i];
      } else {
        assert v[i] == v[..|tokens|][i];
      }
    }
  }

  /** The special_tokens default of from_pretrained. */
  const DefaultSpecialTokens: seq<string> := ["<pad>", "<unk>"]

  /** With the default special tokens, "<pad>" gets the random row and
      "<unk>" the zero row, at the front or after the parsed rows. */
  lemma DefaultSpecialRows(tokens: seq<string>, rows: seq<seq<string>>, specialFirst: bool,
                           random: seq<string>, zeros: seq<string>)
    requires |tokens| == |rows|
    ensures var v, table := FromList(tokens, DefaultSpecialTokens, specialFirst),
                            WithSpecialRows(rows, random, zeros, specialFirst);
      var pad := if specialFirst then 0 else |rows|;
      v[pad] == "<pad>" && table[pad] == random &&
      v[pad + 1] == "<unk>" && table[pad + 1] == zeros
  {
    SpecialRowsFollowSpecialTokens(tokens, rows, DefaultSpecialTokens, specialFirst, random, zeros);
  }

  /** The fields of a row of the table as the pretrained file gives them. */
  predicate HasDims(rows: seq<seq<string>>, dims: int)
  {
    forall i :: 0 <= i < |rows| ==> |rows[i]| == dims
  }

  /** Fasttext.from_pretrained. The archive download and its unpacking are
      not modelled: files is the cache folder after them, by file name, and
      random is what np.random.rand(dims) gave. The name and the dimension
      are checked before any file is looked at. The vocabulary the source
      returns beside the instance is r.value.vocab. */
  method FromPretrained(files: map<string, string>, random: seq<string>,
                        name: string := "1M", dims: int := 300,
                        specialTokens: seq<string> := DefaultSpecialTokens, specialFirst: bool := false)
    returns (r: Result<Fasttext>)
    requires dims in Dims ==> |random| == dims
    ensures name !in Urls ==> r == Err(InvalidName(name))
    ensures name in Urls && dims !in Dims ==> r == Err(InvalidDims(dims))
    ensures name in Urls && dims in Dims ==>
      var file := VecFileName(name, dims);
      (file !in files ==> r == Err(FileNotFound(file))) &&
      (file in files && ParseVectors(files[file]).Err? ==> r == Err(ParseVectors(files[file]).error)) &&
      (file in files && ParseVectors(files[file]).Ok? ==>
        var p := ParseVectors(files[file]).value;
        (r.Ok? <==> HasDims(p.rows, dims)) &&
        (r.Err? ==> r.error == InhomogeneousRows) &&
        (r.Ok? ==>
          r.value.Valid() && r.value.vocabSize == |p.rows| + 2 && r.value.embedDim == dims &&
          r.value.vocab == FromList(p.tokens, specialTokens, specialFirst) &&
          r.value.embed == WithSpecialRows(p.rows, random, Zeros(dims), specialFirst) &&
          r.value.requiresGrad == Bool(true) && r.value.dropoutP == Number(0.5) &&
          r.value.trainState == Bool(true) && r.value.kwargs == map[]))
  {
    if name !in Urls {
      return Err(InvalidName(name));
    }
    if dims !in Dims {
      return Err(InvalidDims(dims));
    }
    var file := VecFileName(name, dims);
    if file !in files {
      return Err(FileNotFound(file));
    }
    var parsed := ReadVectors(files[file]);
    if parsed.Err? {
      return Err(parsed.error);
    }
    var p := parsed.value;
    var zeros := Zeros(dims);
    var rows := InsertSpecialRows(p.rows, random, zeros, specialFirst);
    assert rows == WithSpecialRows(p.rows, random, zeros, specialFirst);
    var vocab := FromList(p.tokens, specialTokens, specialFirst);
    if !Rectangular(rows) {
      assert !HasDims(p.rows, dims) by {
        RectangularWithSpecialRows(p.rows, random, zeros, rows, specialFirst);
      }
      return Err(InhomogeneousRows);
    }
    RectangularWithSpecialRows(p.rows, random, zeros, rows, specialFirst);
    r := Init(vocab, rows, Bool(true), Number(0.5), Bool(true), map[]);
  }

  /** Rows of dims fields together with the two special rows form a matrix
      exactly when every parsed row has dims fields. */
  lemma RectangularWithSpecialRows(parsed: seq<seq<string>>, random: seq<string>, zeros: seq<string>,
                                   rows: seq<seq<string>>, specialFirst: bool)
    requires |random| == |zeros|
    requires rows == WithSpecialRows(parsed, random, zeros, specialFirst)
    ensures Rectangular(rows) <==> HasDims(parsed, |random|)
  {
    var base := if specialFirst then 2 else 0;
    var special := if specialFirst then 0 else |parsed|;
    assert rows[special] == random;
    assert forall i :: 0 <= i < |parsed| ==> rows[base + i] == parsed[i];
    if HasDims(parsed, |random|) {
      forall i | 0 <= i < |rows| ensures |rows[i]| == |random| {
        if specialFirst && i >= 2 {
          assert rows[i] == parsed[i - 2];
        } else if !specialFirst && i < |parsed| {
          assert rows[i] == parsed[i];
        }
      }
    }
    if Rectangular(rows) {
      forall i | 0 <= i < |parsed| ensures |parsed[i]| == |random| {
        assert |rows[base + i]| == |rows[special]|;
      }
    }
  }

  /** Product([n]) == n and Product([n, d]) == n * d */
  lemma ProductFlat(n: nat, d: nat)
    ensures Product([n]) == n && Product([n, d]) == n * d
  {
    assert [d][1..] == [] && [n][1..] == [];
    assert Product([d]) == d * Product([]) == d;
    assert [n, d][1..] == [d];
  }

  /** The gathered rows fill a tensor of shape [n, d], and one of shape
      ids.shape + [d]. */
  lemma LookupShape(rows: seq<seq<string>>, d: nat, ids: Tensor<int>)
    requires ids.Wf()
    requires forall i :: 0 <= i < |rows| ==> |rows[i]| == d
    requires forall k :: 0 <= k < |ids.data| ==> 0 <= ids.data[k] < |rows|
    ensures Product([|ids.data|]) == |ids.data|
    ensures Product(ids.shape + [d]) == |Gather(rows, ids.data)| == Product([|ids.data|, d])
  {
    ProductFlat(|ids.data|, d);
    ProductAppend(ids.shape, d);
    GatherLength(rows, d, ids.data);
  }

  /** Fasttext.construct without its dropout: the ids are flattened, their
      rows gathered, and the result shaped as the ids with one more axis of
      length embed_dim. */
  function Construct(e: Fasttext, ids: Tensor<int>): (out: Tensor<string>)
    requires e.Valid() && ids.Wf()
    requires forall k :: 0 <= k < |ids.data| ==> 0 <= ids.data[k] < e.vocabSize
    ensures out.shape == ids.shape + [e.embedDim] && |out.data| == |ids.data| * e.embedDim
  {
    LookupShape(e.embed, e.embedDim, ids);
    GatherLength(e.embed, e.embedDim, ids.data);
    var flatIds := Reshape(ids, [|ids.data|]);
    var gathered := Tensor([|ids.data|, e.embedDim], Gather(e.embed, flatIds.data));
    Reshape(gathered, ids.shape + [e.embedDim])
  }

  /** The lookup output is a well-formed tensor: it holds one entry per
      index of its shape. */
  lemma ConstructWf(e: Fasttext, ids: Tensor<int>)
    requires e.Valid() && ids.Wf()
    requires forall k :: 0 <= k < |ids.data| ==> 0 <= ids.data[k] < e.vocabSize
    ensures Construct(e, ids).Wf()
  {
    LookupShape(e.embed, e.embedDim, ids);
  }

  /** The flat lookup output is the gathered rows. */
  lemma ConstructGathers(e: Fasttext, ids: Tensor<int>)
    requires e.Valid() && ids.Wf()
    requires forall k :: 0 <= k < |ids.data| ==> 0 <= ids.data[k] < e.vocabSize
    ensures Construct(e, ids).data == Gather(e.embed, ids.data)
  {
  }

  /** Block k of the flat lookup output is the table row of the k-th id. */
  lemma LookupBlock(e: Fasttext, ids: Tensor<int>, k: nat)
    requires e.Valid() && ids.Wf()
    requires forall j :: 0 <= j < |ids.data| ==> 0 <= ids.data[j] < e.vocabSize
    requires k < |ids.data|
    ensures (k + 1) * e.embedDim <= |Construct(e, ids).data|
    ensures Block(Construct(e, ids).data, k, e.embedDim) == e.embed[ids.data[k]]
  {
    ConstructGathers(e, ids);
    GatherBlock(e.embed, e.embedDim, ids.data, k);
  }

  /** The configuration save writes: a copy of kwargs with dropout,
      requires_grad and train_state set from the instance. */
  function SaveConfig(e: Fasttext): (config: map<string, Value>)
    ensures config.Keys == e.kwargs.Keys + Parameters
    ensures config["dropout"] == e.dropoutP && config["requires_grad"] == e.requiresGrad &&
      config["train_state"] == e.trainState
    ensures forall k :: k in e.kwargs && k !in Parameters ==> config[k] == e.kwargs[k]
  {
    e.kwargs["dropout" := e.dropoutP]["requires_grad" := e.requiresGrad]["train_state" := e.trainState]
  }

  /** Fasttext.save: the configuration and the vector file it writes. The
      vocabulary list is read at every index below vocab_size, so a
      vocabulary shorter than the table raises IndexError once the lines
      before that index are written. */
  method Save(e: Fasttext) returns (config: map<string, Value>, vectors: TextFile, r: Result<()>)
    requires e.Valid()
    ensures fresh(vectors) && vectors.Valid()
    ensures config == SaveConfig(e)
    ensures r.Ok? <==> e.vocabSize <= |e.vocab|
    ensures r.Ok? ==> vectors.Content() == SavedText(e.vocab, e.embed, e.embedDim)
    ensures r.Err? ==> (r.error == IndexOutOfRange &&
      vectors.Content() == Placeholder + Body(e.vocab, e.embed, |e.vocab|))
  {
    config := e.kwargs;
    config := config["dropout" := e.dropoutP];
    config := config["requires_grad" := e.requiresGrad];
    config := config["train_state" := e.trainState];
    var ok;
    vectors, ok := WriteVectors(e.vocab, e.embed, e.embedDim);
    r := if ok then Ok(()) else Err(IndexOutOfRange);
  }

  /** hyper.get(key, default) as __init__ sees it through **hyper. */
  function Get(hyper: map<string, Value>, key: string, default: Value): Value
  {
    if key in hyper then hyper[key] else default
  }

  /** cls(vocab, Tensor(embeddings), **hyper): a key naming a positional
      parameter is given twice and raises TypeError; the keyword parameters
      take their values from hyper or their defaults, and the remaining keys
      become kwargs. __init__ then fails on an empty table, and on a null or
      string "dropout". */
  function InitFromConfig(tokens: seq<string>, rows: seq<seq<string>>, hyper: map<string, Value>): (r: Result<Fasttext>)
    requires Rectangular(rows)
    ensures !(hyper.Keys !! Positional) ==> r == Err(MultipleValues)
    ensures r.Err? <==>
      (!(hyper.Keys !! Positional) || rows == [] || !Subtractable(Get(hyper, "dropout", Number(0.5))))
    ensures r.Err? && hyper.Keys !! Positional ==>
      r.error == (if rows == [] then EmptyTable else BadOperand)
    ensures r.Ok? ==> (r.value.kwargs.Keys == hyper.Keys - Parameters &&
      forall k :: k in r.value.kwargs ==> r.value.kwargs[k] == hyper[k])
    ensures r.Ok? ==> (r.value.dropoutP == Get(hyper, "dropout", Number(0.5)) &&
      r.value.requiresGrad == Get(hyper, "requires_grad", Bool(true)) &&
      r.value.trainState == Get(hyper, "train_state", Bool(true)))
  {
    if "self" in hyper || "vocab" in hyper || "init_embed" in hyper then Err(MultipleValues)
    else
      Init(tokens, rows, Get(hyper, "requires_grad", Bool(true)), Get(hyper, "dropout", Number(0.5)),
           Get(hyper, "train_state", Bool(true)), hyper - Parameters)
  }

  /** Fasttext.load, given the saved folder's two files (None when absent):
      each file must exist, the vector file is read as from_pretrained reads
      one, and its tokens become the vocabulary in file order. */
  function LoadSpec(config: Option<map<string, Value>>, vectors: Option<string>): Result<Fasttext>
  {
    if config.None? then Err(MissingFile(JsonFileName))
    else if vectors.None? then Err(MissingFile(EmbedFileName))
    else
      match ParseVectors(vectors.value)
      case Err(e) => Err(e)
      case Ok(p) =>
        if !Rectangular(p.rows) then Err(InhomogeneousRows)
        else InitFromConfig(p.tokens, p.rows, config.value)
  }

  /** Fasttext.load with its reading loop. */
  method Load(config: Option<map<string, Value>>, vectors: Option<string>) returns (r: Result<Fasttext>)
    ensures config.None? ==> r == Err(MissingFile(JsonFileName))
    ensures config.Some? && vectors.None? ==> r == Err(MissingFile(EmbedFileName))
    ensures r == LoadSpec(config, vectors)
  {
    if config.None? {
      return Err(MissingFile(JsonFileName));
    }
    if vectors.None? {
      return Err(MissingFile(EmbedFileName));
    }
    var parsed := ReadVectors(vectors.value);
    if parsed.Err? {
      return Err(parsed.error);
    }
    if !Rectangular(parsed.value.rows) {
      return Err(InhomogeneousRows);
    }
    r := InitFromConfig(parsed.value.tokens, parsed.value.rows, config.value);
  }

  /** Every token and every field of e is a word, and the header of its
      saved file fits in the placeholder. */
  predicate Saveable(e: Fasttext)
    requires e.Valid()
  {
    |e.vocab| == e.vocabSize && e.vocabSize >= 1 && e.embedDim >= 1 &&
    |Header(e.vocabSize, e.embedDim)| <= 30 &&
    forall i :: 0 <= i < e.vocabSize ==> Writable(e.vocab[i], e.embed[i])
  }

  /** Loading what save wrote gives back the same layer: the same tokens in
      the same order, the same rows, the same hyperparameters and kwargs. */
  lemma SaveLoadRoundTrip(e: Fasttext)
    requires e.Valid() && Saveable(e)
    ensures LoadSpec(Some(SaveConfig(e)), Some(SavedText(e.vocab, e.embed, e.embedDim))) == Ok(e)
  {
    SaveThenRead(e.vocab, e.embed, e.embedDim);
    var config := SaveConfig(e);
    assert "self" !in config && "vocab" !in config && "init_embed" !in config;
    assert config - Parameters == e.kwargs;
    assert Rectangular(e.embed);
    assert e.vocab[..|e.embed|] == e.vocab;
  }
}
