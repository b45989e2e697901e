/** The text format of vector files: one header line, then one line per token
    holding the token and the fields of its vector, separated by whitespace.
    Reading skips the header line and splits every other line once; saving
    writes a blank header line, the token lines, and then overwrites the start
    of the blank line with "<nums> <dims>". */
module VectorFile {
  import opened Outcomes
  import opened Strings
  import opened TextFiles

  /** One line of a vector file: a token and the fields of its vector. */
  datatype Entry = Entry(token: string, fields: seq<string>)

  /** What the reading loop collects: the tokens and their rows, in file order. */
  datatype Parsed = Parsed(tokens: seq<string>, rows: seq<seq<string>>)

  /** word, embedding = line.split(maxsplit=1), with the embedding then split
      on whitespace by np.fromstring(embedding, sep=' '). A line of fewer than
      two words cannot be unpacked into two names. */
  function ParseLine(line: string): (r: Result<Entry>)
    ensures r.Ok? <==> |Words(line)| >= 2
    ensures r.Ok? ==> r.value == Entry(Words(line)[0], Words(line)[1..])
    ensures r.Err? ==> r.error == Unpack(|Words(line)|)
  {
    SplitOnceAgreesWithWords(line);
    var parts := SplitOnce(line);
    if |parts| < 2 then Err(Unpack(|parts|)) else Ok(Entry(parts[0], Words(parts[1])))
  }

  /** p followed by what r collected; an error stays an error. */
  function Prepend(p: Parsed, r: Result<Parsed>): Result<Parsed>
  {
    match r
    case Err(e) => Err(e)
    case Ok(q) => Ok(Parsed(p.tokens + q.tokens, p.rows + q.rows))
  }

  lemma PrependNothing(r: Result<Parsed>)
    ensures Prepend(Parsed([], []), r) == r
  {
    if r.Ok? {
      assert [] + r.value.tokens == r.value.tokens && [] + r.value.rows == r.value.rows;
    }
  }

  /** Collecting p, then one more entry, then r is collecting p with the entry, then r. */
  lemma PrependTwice(p: Parsed, token: string, fields: seq<string>, r: Result<Parsed>)
    ensures Prepend(p, Prepend(Parsed([token], [fields]), r))
      == Prepend(Parsed(p.tokens + [token], p.rows + [fields]), r)
  {
    if r.Ok? {
      assert p.tokens + ([token] + r.value.tokens) == p.tokens + [token] + r.value.tokens;
      assert p.rows + ([fields] + r.value.rows) == p.rows + [fields] + r.value.rows;
    }
  }

  /** The reading loop over the given lines: it stops at the first line that
      does not split into two parts. */
  function ParseLines(lines: seq<string>): Result<Parsed>
  {
    if lines == [] then Ok(Parsed([], []))
    else
      match ParseLine(lines[0])
      case Err(e) => Err(e)
      case Ok(entry) => Prepend(Parsed([entry.token], [entry.fields]), ParseLines(lines[1..]))
  }

  /** The lines after the first, as islice(file, 1, None) yields them from a
      file opened in text mode. */
  function DataLines(text: string): seq<string>
  {
    var lines := Lines(UniversalNewlines(text));
    if lines == [] then [] else lines[1..]
  }

  /** The tokens and rows of a vector file, or the error of its first bad line. */
  function ParseVectors(text: string): Result<Parsed>
  {
    ParseLines(DataLines(text))
  }

  predicate Splits(line: string)
  {
    |Words(line)| >= 2
  }

  /** Reading succeeds exactly when every line splits; then it yields one
      token and one row per line, in order, and otherwise it reports the
      first line that does not split. */
  lemma {:induction false} ParseLinesMeaning(lines: seq<string>)
    ensures ParseLines(lines).Ok? <==> forall i :: 0 <= i < |lines| ==> Splits(lines[i])
    ensures ParseLines(lines).Ok? ==>
      var p := ParseLines(lines).value;
      |p.tokens| == |lines| && |p.rows| == |lines| &&
      forall i :: 0 <= i < |lines| ==>
        p.tokens[i] == Words(lines[i])[0] && p.rows[i] == Words(lines[i])[1..]
    ensures ParseLines(lines).Err? ==>
      exists i :: 0 <= i < |lines| && !Splits(lines[i]) &&
        (forall j :: 0 <= j < i ==> Splits(lines[j])) &&
        ParseLines(lines).error == Unpack(|Words(lines[i])|)
  {
    if lines != [] {
      var rest := lines[1..];
      ParseLinesMeaning(rest);
      var r := ParseLines(lines);
      if !Splits(lines[0]) {
        assert r.Err? && r.error == Unpack(|Words(lines[0])|);
      } else {
        var w := Words(lines[0]);
        assert ParseLine(lines[0]) == Ok(Entry(w[0], w[1..]));
        assert r == Prepend(Parsed([w[0]], [w[1..]]), ParseLines(rest));
        if ParseLines(rest).Ok? {
          var q := ParseLines(rest).value;
          forall i | 0 <= i < |lines|
            ensures r.value.tokens[i] == Words(lines[i])[0] && r.value.rows[i] == Words(lines[i])[1..]
          {
            if i > 0 {
              assert lines[i] == rest[i - 1];
            }
          }
          forall i | 0 <= i < |lines| ensures Splits(lines[i]) {
            if i > 0 {
              assert lines[i] == rest[i - 1];
            }
          }
        } else {
          var k :| 0 <= k < |rest| && !Splits(rest[k]) &&
            (forall j :: 0 <= j < k ==> Splits(rest[j])) &&
            ParseLines(rest).error == Unpack(|Words(rest[k])|);
          assert lines[k + 1] == rest[k];
          forall j | 0 <= j < k + 1 ensures Splits(lines[j]) {
            if j > 0 {
              assert lines[j] == rest[j - 1];
            }
          }
        }
      }
    }
  }

  /** The reading loop of from_pretrained and load: every line after the
      header is split once, its first part appended to the tokens and the
      words of its second part to the rows. */
  method ReadVectors(text: string) returns (r: Result<Parsed>)
    ensures r == ParseVectors(text)
  {
    var lines := DataLines(text);
    var tokens: seq<string> := [];
    var rows: seq<seq<string>> := [];
    var i := 0;
    PrependNothing(ParseLines(lines));
    assert lines[0..] == lines;
    while i < |lines|
      invariant 0 <= i <= |lines|
      invariant ParseLines(lines) == Prepend(Parsed(tokens, rows), ParseLines(lines[i..]))
    {
      var parts := SplitOnce(lines[i]);
      assert lines[i..][0] == lines[i] && lines[i..][1..] == lines[i + 1..];
      if |parts| < 2 {
        assert ParseLine(lines[i]) == Err(Unpack(|parts|));
        return Err(Unpack(|parts|));
      }
      PrependTwice(Parsed(tokens, rows), parts[0], Words(parts[1]), ParseLines(lines[i + 1..]));
      tokens := tokens + [parts[0]];
      rows := rows + [Words(parts[1])];
      i := i + 1;
    }
    assert lines[i..] == [];
    assert tokens + [] == tokens && rows + [] == rows;
    r := Ok(Parsed(tokens, rows));
  }

  /** f'{token} {" ".join(map(str, row))}\n' */
  function SavedLine(token: string, fields: seq<string>): string
  {
    token + " " + JoinSpaces(fields) + "\n"
  }

  /** The first n token lines of a saved vector file. */
  function Body(vocab: seq<string>, rows: seq<seq<string>>, n: nat): string
    requires n <= |vocab| && n <= |rows|
  {
    if n == 0 then "" else Body(vocab, rows, n - 1) + SavedLine(vocab[n - 1], rows[n - 1])
  }

  /** " " * n */
  function Spaces(n: nat): (r: string)
    ensures |r| == n && forall i :: 0 <= i < n ==> r[i] == ' '
  {
    seq(n, _ => ' ')
  }

  /** The placeholder for the header: thirty spaces and a line end. */
  const Placeholder: string := Spaces(30) + "\n"

  /** f'{nums} {dims}' */
  function Header(nums: nat, dims: nat): string
  {
    Decimal(nums) + " " + Decimal(dims)
  }

  /** The saved file: the header written over the start of the placeholder line. */
  function SavedText(vocab: seq<string>, rows: seq<seq<string>>, dims: nat): string
    requires |rows| <= |vocab|
  {
    Overwrite(Placeholder + Body(vocab, rows, |rows|), 0, Header(|rows|, dims))
  }

  /** Writing at the end of a file appends. */
  lemma OverwriteAtEnd(c: string, s: string)
    ensures Overwrite(c, |c|, s) == c + s
  {
  }

  /** The save loop of Fasttext.save, for a table of |rows| rows: the
      placeholder line, one line per row, then seek(0) and the header. When
      the vocabulary list is shorter than the table, vocab_list[i] raises
      IndexError after the lines written so far. */
  method WriteVectors(vocab: seq<string>, rows: seq<seq<string>>, dims: nat)
    returns (f: TextFile, ok: bool)
    ensures fresh(f) && fresh(f.buf) && f.Valid()
    ensures ok <==> |rows| <= |vocab|
    ensures ok ==> f.Content() == SavedText(vocab, rows, dims)
    ensures !ok ==> f.Content() == Placeholder + Body(vocab, rows, |vocab|)
  {
    f := new TextFile();
    OverwriteAtEnd([], Placeholder);
    f.Write(Placeholder);
    var i := 0;
    while i < |rows|
      invariant 0 <= i <= |rows| && i <= |vocab|
      invariant fresh(f) && fresh(f.buf) && f.Valid()
      invariant f.Content() == Placeholder + Body(vocab, rows, i)
      invariant f.pos == |f.Content()|
    {
      if i == |vocab| {
        return f, false;
      }
      var line := SavedLine(vocab[i], rows[i]);
      ghost var before := f.Content();
      OverwriteAtEnd(before, line);
      f.Write(line);
      AppendAssoc(Placeholder, Body(vocab, rows, i), line);
      i := i + 1;
    }
    f.Rewind();
    f.Write(Header(|rows|, dims));
    ok := true;
  }

  /** seek(0) and write(header) replace the first |header| characters of the
      file and leave every later character, the rest of the placeholder and
      the whole body, as it was. */
  lemma HeaderOverwriteKeepsRest(vocab: seq<string>, rows: seq<seq<string>>, dims: nat)
    requires |rows| <= |vocab|
    ensures var before, h := Placeholder + Body(vocab, rows, |rows|), Header(|rows|, dims);
      var after := SavedText(vocab, rows, dims);
      |after| == (if |h| <= |before| then |before| else |h|) &&
      after[..|h|] == h &&
      forall i :: |h| <= i < |before| ==> after[i] == before[i]
  {
    var before, h := Placeholder + Body(vocab, rows, |rows|), Header(|rows|, dims);
    var after := SavedText(vocab, rows, dims);
    OverwriteAt(before, 0, h);
    assert forall i :: 0 <= i < |h| ==> after[..|h|][i] == h[i];
  }

  /** The placeholder is thirty spaces and a line end. */
  lemma PlaceholderShape()
    ensures |Placeholder| == 31 && Placeholder[30] == '\n'
    ensures forall i :: 0 <= i < 30 ==> Placeholder[i] == ' '
  {
  }

  /** The header holds digits and one space. */
  lemma HeaderChars(nums: nat, dims: nat)
    ensures forall i :: 0 <= i < |Header(nums, dims)| ==>
      Header(nums, dims)[i] == ' ' || '0' <= Header(nums, dims)[i] <= '9'
  {
    var a, b := Decimal(nums), Decimal(dims);
    var h := Header(nums, dims);
    forall i | 0 <= i < |h| ensures h[i] == ' ' || '0' <= h[i] <= '9' {
      if i < |a| {
        assert h[i] == a[i];
      } else if i > |a| {
        assert h[i] == b[i - |a| - 1];
      }
    }
  }

  /** The first line of the saved file without its line end: the header and
      the placeholder spaces it did not cover. */
  function HeaderLine(nums: nat, dims: nat): string
    requires |Header(nums, dims)| <= 30
  {
    Header(nums, dims) + Placeholder[|Header(nums, dims)|..30]
  }

  /** The header line holds no line break. */
  lemma HeaderLineChars(nums: nat, dims: nat)
    requires |Header(nums, dims)| <= 30
    ensures '\n' !in HeaderLine(nums, dims) && '\r' !in HeaderLine(nums, dims)
  {
    var h, l := Header(nums, dims), HeaderLine(nums, dims);
    HeaderChars(nums, dims);
    PlaceholderShape();
    forall i | 0 <= i < |l| ensures l[i] != '\n' && l[i] != '\r' {
      if i < |h| {
        assert l[i] == h[i];
      } else {
        assert l[i] == Placeholder[i];
      }
    }
  }

  /** A header of at most 30 characters stays inside the placeholder line. */
  lemma SavedTextLayout(vocab: seq<string>, rows: seq<seq<string>>, dims: nat)
    requires |rows| <= |vocab| && |Header(|rows|, dims)| <= 30
    ensures SavedText(vocab, rows, dims)
      == HeaderLine(|rows|, dims) + "\n" + Body(vocab, rows, |rows|)
  {
    var h, b, p := Header(|rows|, dims), Body(vocab, rows, |rows|), Placeholder;
    var pad := p[|h|..30];
    PlaceholderShape();
    assert SavedText(vocab, rows, dims) == h + (p + b)[|h|..] by {
      assert (p + b)[..0] == [];
    }
    assert (p + b)[|h|..] == p[|h|..] + b;
    assert p[|h|..] == pad + "\n";
    AppendAssoc(pad, "\n", b);
    AppendAssoc(h, pad + "\n", b);
    AppendAssoc(h, pad, "\n");
  }

  /** A row that can be written and read back: a word for a token and at
      least one word for the fields. */
  predicate Writable(token: string, fields: seq<string>)
  {
    IsWord(token) && |fields| >= 1 && forall j :: 0 <= j < |fields| ==> IsWord(fields[j])
  }

  /** A saved line reads back as the token and the fields it was made of. */
  lemma SavedLineParses(token: string, fields: seq<string>)
    requires Writable(token, fields)
    ensures ParseLine(SavedLine(token, fields)) == Ok(Entry(token, fields))
  {
    var j := JoinSpaces(fields);
    var line := SavedLine(token, fields);
    assert line == token + ([' '] + (j + "\n"));
    WordsCons(token, [' '] + (j + "\n"));
    WordsSpace(' ', j + "\n");
    WordsOfJoin(fields, "\n");
    assert "\n"[1..] == [];
    assert Words("\n") == [];
    assert fields + [] == fields;
    assert Words(line) == [token] + fields;
    assert Words(line)[1..] == fields;
  }

  /** The items of fields hold no line break, and neither does their join. */
  lemma JoinHasNoBreaks(fields: seq<string>)
    requires forall j :: 0 <= j < |fields| ==> IsWord(fields[j])
    ensures '\n' !in JoinSpaces(fields) && '\r' !in JoinSpaces(fields)
  {
    forall i | 0 <= i < |fields| ensures '\n' !in fields[i] && '\r' !in fields[i] {
      WordAvoids(fields[i], '\n');
      WordAvoids(fields[i], '\r');
    }
    JoinSpacesAvoids(fields, '\n');
    JoinSpacesAvoids(fields, '\r');
  }

  /** A saved line is one line of the file, with no carriage return. */
  lemma SavedLineIsLine(token: string, fields: seq<string>)
    requires Writable(token, fields)
    ensures Lines(SavedLine(token, fields)) == [SavedLine(token, fields)]
    ensures '\r' !in SavedLine(token, fields)
  {
    var j := JoinSpaces(fields);
    JoinHasNoBreaks(fields);
    WordAvoids(token, '\n');
    WordAvoids(token, '\r');
    assert '\n' !in token + " " + j;
    LinesOfLine(token + " " + j);
  }

  /** The body is empty or ends with a line end. */
  lemma BodyEnds(vocab: seq<string>, rows: seq<seq<string>>, n: nat)
    requires n <= |vocab| && n <= |rows|
    ensures Body(vocab, rows, n) == [] || Body(vocab, rows, n)[|Body(vocab, rows, n)| - 1] == '\n'
  {
    if n > 0 {
      var b, l := Body(vocab, rows, n - 1), SavedLine(vocab[n - 1], rows[n - 1]);
      assert (b + l)[|b + l| - 1] == l[|l| - 1];
    }
  }

  /** The saved lines of the first n rows, in order. */
  function SavedLines(vocab: seq<string>, rows: seq<seq<string>>, n: nat): seq<string>
    requires n <= |vocab| && n <= |rows|
  {
    if n == 0 then [] else SavedLines(vocab, rows, n - 1) + [SavedLine(vocab[n - 1], rows[n - 1])]
  }

  /** Line i of the first n saved lines is the one written for row i. */
  lemma {:induction false} SavedLinesAt(vocab: seq<string>, rows: seq<seq<string>>, n: nat)
    requires n <= |vocab| && n <= |rows|
    ensures |SavedLines(vocab, rows, n)| == n
    ensures forall i :: 0 <= i < n ==> SavedLines(vocab, rows, n)[i] == SavedLine(vocab[i], rows[i])
  {
    if n > 0 {
      SavedLinesAt(vocab, rows, n - 1);
    }
  }

  /** The body splits into the saved lines, one per row. */
  lemma {:induction false} BodyLines(vocab: seq<string>, rows: seq<seq<string>>, n: nat)
    requires n <= |vocab| && n <= |rows|
    requires forall i :: 0 <= i < n ==> Writable(vocab[i], rows[i])
    ensures Lines(Body(vocab, rows, n)) == SavedLines(vocab, rows, n)
  {
    if n > 0 {
      var b, l := Body(vocab, rows, n - 1), SavedLine(vocab[n - 1], rows[n - 1]);
      BodyLines(vocab, rows, n - 1);
      BodyEnds(vocab, rows, n - 1);
      SavedLineIsLine(vocab[n - 1], rows[n - 1]);
      LinesAppend(b, l);
    }
  }

  /** A body of writable rows holds no carriage return. */
  lemma {:induction false} BodyHasNoReturn(vocab: seq<string>, rows: seq<seq<string>>, n: nat)
    requires n <= |vocab| && n <= |rows|
    requires forall i :: 0 <= i < n ==> Writable(vocab[i], rows[i])
    ensures '\r' !in Body(vocab, rows, n)
  {
    if n > 0 {
      var b, l := Body(vocab, rows, n - 1), SavedLine(vocab[n - 1], rows[n - 1]);
      BodyHasNoReturn(vocab, rows, n - 1);
      SavedLineIsLine(vocab[n - 1], rows[n - 1]);
      NoneInAppend(b, l, '\r');
    }
  }

  lemma NoneInAppend(a: string, b: string, c: char)
    requires c !in a && c !in b
    ensures c !in a + b
  {
  }

  /** The lines after the header line of a saved file are the body's lines. */
  lemma SavedDataLines(vocab: seq<string>, rows: seq<seq<string>>, dims: nat)
    requires |rows| <= |vocab| && |Header(|rows|, dims)| <= 30
    requires forall i :: 0 <= i < |rows| ==> Writable(vocab[i], rows[i])
    ensures DataLines(SavedText(vocab, rows, dims)) == Lines(Body(vocab, rows, |rows|))
  {
    var l, b := HeaderLine(|rows|, dims), Body(vocab, rows, |rows|);
    SavedTextLayout(vocab, rows, dims);
    HeaderLineChars(|rows|, dims);
    BodyEnds(vocab, rows, |rows|);
    BodyHasNoReturn(vocab, rows, |rows|);
    LinesOfLine(l);
    LinesAppend(l + "\n", b);
    NoneInAppend(l, "\n", '\r');
    NoneInAppend(l + "\n", b, '\r');
    UniversalNewlinesKeeps(l + "\n" + b);
  }

  /** Lines that each read as a given entry read as those entries, in order. */
  lemma {:induction false} ParseLinesOfEntries(lines: seq<string>, tokens: seq<string>, rows: seq<seq<string>>)
    requires |lines| == |tokens| == |rows|
    requires forall i :: 0 <= i < |lines| ==> ParseLine(lines[i]) == Ok(Entry(tokens[i], rows[i]))
    ensures ParseLines(lines) == Ok(Parsed(tokens, rows))
  {
    if lines != [] {
      ParseLinesOfEntries(lines[1..], tokens[1..], rows[1..]);
      HeadTail(tokens);
      HeadTail(rows);
    }
  }

  /** Reading a saved file gives back the rows that were saved and the
      tokens they were saved with, provided the header fits in the
      placeholder line. Tokens past the last row are never written. */
  lemma SaveThenRead(vocab: seq<string>, rows: seq<seq<string>>, dims: nat)
    requires |rows| <= |vocab| && |Header(|rows|, dims)| <= 30
    requires forall i :: 0 <= i < |rows| ==> Writable(vocab[i], rows[i])
    ensures ParseVectors(SavedText(vocab, rows, dims)) == Ok(Parsed(vocab[..|rows|], rows))
  {
    var n := |rows|;
    SavedDataLines(vocab, rows, dims);
    BodyLines(vocab, rows, n);
    SavedLinesAt(vocab, rows, n);
    var lines := SavedLines(vocab, rows, n);
    var tokens := vocab[..n];
    forall i | 0 <= i < n ensures ParseLine(lines[i]) == Ok(Entry(tokens[i], rows[i])) {
      SavedLineParses(vocab[i], rows[i]);
    }
    ParseLinesOfEntries(lines, tokens, rows);
  }
}
