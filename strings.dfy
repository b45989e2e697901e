/** The parts of Python's string and file-reading behaviour that the embedding
    code relies on: str.isspace, str.split() with and without maxsplit=1,
    iteration over the lines of a text file, ' '.join, str() of an int and
    re.sub(r".+/", "", s). */
module Strings {

  /** str.isspace() of one character: the characters str.split() breaks on. */
  predicate IsSpace(c: char)
  {
    var n := c as int;
    n == 0x20 || 0x09 <= n <= 0x0D || 0x1C <= n <= 0x1F || n == 0x85 || n == 0xA0
    || n == 0x1680 || 0x2000 <= n <= 0x200A || n == 0x2028 || n == 0x2029
    || n == 0x202F || n == 0x205F || n == 0x3000
  }

  /** A non-empty run of non-space characters: one item of str.split(). */
  predicate IsWord(s: string)
  {
    |s| > 0 && forall i :: 0 <= i < |s| ==> !IsSpace(s[i])
  }

  /** A word holds no whitespace character. */
  lemma WordAvoids(w: string, c: char)
    requires IsWord(w) && IsSpace(c)
    ensures c !in w
  {
    forall i | 0 <= i < |w| ensures w[i] != c {
      assert !IsSpace(w[i]);
    }
  }

  /** s without its leading whitespace. */
  function SkipSpace(s: string): (r: string)
    ensures |r| <= |s|
  {
    if s != [] && IsSpace(s[0]) then SkipSpace(s[1..]) else s
  }

  /** What is left after skipping whitespace starts with a non-space character. */
  lemma {:induction false} SkipSpaceStops(s: string)
    ensures SkipSpace(s) != [] ==> !IsSpace(SkipSpace(s)[0])
  {
    if s != [] && IsSpace(s[0]) {
      SkipSpaceStops(s[1..]);
    }
  }

  /** The length of the leading run of non-space characters. */
  function WordLength(s: string): (k: nat)
    ensures k <= |s|
  {
    if s == [] || IsSpace(s[0]) then 0 else 1 + WordLength(s[1..])
  }

  /** str.split() with no arguments: the maximal runs of non-space characters, in order. */
  function Words(s: string): seq<string>
    decreases |s|
  {
    if s == [] then []
    else if IsSpace(s[0]) then Words(s[1..])
    else
      var k := WordLength(s);
      [s[..k]] + Words(s[k..])
  }

  /** str.split(maxsplit=1): the first word and, when anything but whitespace
      follows it, the rest of s after the whitespace run behind that word
      (trailing whitespace included). */
  function SplitOnce(s: string): (parts: seq<string>)
  {
    var t := SkipSpace(s);
    if t == [] then []
    else
      var k := WordLength(t);
      var rest := SkipSpace(t[k..]);
      if rest == [] then [t[..k]] else [t[..k], rest]
  }

  lemma {:induction false} WordsSkipSpace(s: string)
    ensures Words(SkipSpace(s)) == Words(s)
  {
    if s != [] && IsSpace(s[0]) {
      WordsSkipSpace(s[1..]);
    }
  }

  /** Splitting once agrees with splitting fully: the first part is the first
      word, and the words of the second part are all the other words. */
  lemma SplitOnceAgreesWithWords(s: string)
    ensures var parts, ws := SplitOnce(s), Words(s);
      |parts| == (if |ws| < 2 then |ws| else 2) &&
      (|parts| >= 1 ==> parts[0] == ws[0]) &&
      (|parts| == 2 ==> Words(parts[1]) == ws[1..])
  {
    var t := SkipSpace(s);
    WordsSkipSpace(s);
    SkipSpaceStops(s);
    if t != [] {
      var k := WordLength(t);
      WordsSkipSpace(t[k..]);
      SkipSpaceStops(t[k..]);
    }
  }

  lemma {:induction false} WordLengthOfWord(w: string, x: string)
    requires IsWord(w)
    requires x == [] || IsSpace(x[0])
    ensures WordLength(w + x) == |w|
    decreases |w|
  {
    var s := w + x;
    assert s[0] == w[0];
    if |w| == 1 {
      assert s[1..] == x;
    } else {
      assert s[1..] == w[1..] + x;
      WordLengthOfWord(w[1..], x);
    }
  }

  /** A word followed by whitespace (or by nothing) is split off as one item. */
  lemma WordsCons(w: string, x: string)
    requires IsWord(w)
    requires x == [] || IsSpace(x[0])
    ensures Words(w + x) == [w] + Words(x)
  {
    var s := w + x;
    assert s[0] == w[0];
    WordLengthOfWord(w, x);
    assert s[..|w|] == w && s[|w|..] == x;
  }

  /** Leading whitespace does not change the words. */
  lemma WordsSpace(c: char, x: string)
    requires IsSpace(c)
    ensures Words([c] + x) == Words(x)
  {
    assert ([c] + x)[1..] == x;
  }

  /** A non-empty sequence is its head followed by its tail. */
  lemma HeadTail<T>(s: seq<T>)
    requires s != []
    ensures [s[0]] + s[1..] == s
  {
  }

  lemma AppendAssoc<T>(a: seq<T>, b: seq<T>, c: seq<T>)
    ensures a + (b + c) == (a + b) + c
  {
  }

  /** If whole == [x] + (p + q) and front == [x] + p, then whole == front + q. */
  lemma ConsAppend<T>(whole: seq<T>, front: seq<T>, q: seq<T>, x: T, p: seq<T>, pq: seq<T>)
    requires whole == [x] + pq && pq == p + q && front == [x] + p
    ensures whole == front + q
  {
  }

  /** ' '.join(fs) */
  function JoinSpaces(fs: seq<string>): string
  {
    if fs == [] then ""
    else if |fs| == 1 then fs[0]
    else fs[0] + " " + JoinSpaces(fs[1..])
  }

  lemma WordsOfJoinStep(fs: seq<string>, x: string)
    requires |fs| >= 2 && IsWord(fs[0])
    ensures Words(JoinSpaces(fs) + x) == [fs[0]] + Words(JoinSpaces(fs[1..]) + x)
  {
    var tail := JoinSpaces(fs[1..]) + x;
    assert JoinSpaces(fs) + x == fs[0] + ([' '] + tail);
    WordsCons(fs[0], [' '] + tail);
    WordsSpace(' ', tail);
  }

  /** Splitting ' '.join(fs) gives fs back when every item is a word. */
  lemma {:induction false} WordsOfJoin(fs: seq<string>, x: string)
    requires |fs| >= 1 && forall i :: 0 <= i < |fs| ==> IsWord(fs[i])
    requires x == [] || IsSpace(x[0])
    ensures Words(JoinSpaces(fs) + x) == fs + Words(x)
  {
    if |fs| == 1 {
      WordsCons(fs[0], x);
      assert [fs[0]] == fs;
    } else {
      WordsOfJoinStep(fs, x);
      WordsOfJoin(fs[1..], x);
      HeadTail(fs);
      ConsAppend(Words(JoinSpaces(fs) + x), fs, Words(x), fs[0], fs[1..], Words(JoinSpaces(fs[1..]) + x));
    }
  }

  /** A character that is neither a separator nor in any item is not in the join. */
  lemma {:induction false} JoinSpacesAvoids(fs: seq<string>, c: char)
    requires c != ' ' && forall i :: 0 <= i < |fs| ==> c !in fs[i]
    ensures c !in JoinSpaces(fs)
  {
    if |fs| > 1 {
      JoinSpacesAvoids(fs[1..], c);
    }
  }

  /** The index of the first c in s at or after i, or |s| when there is none. */
  function IndexFrom(s: string, c: char, i: nat): (k: nat)
    requires i <= |s|
    ensures i <= k <= |s|
    ensures k < |s| ==> s[k] == c
    decreases |s| - i
  {
    if i == |s| || s[i] == c then i else IndexFrom(s, c, i + 1)
  }

  /** The index of the first c in s, or |s| when there is none. */
  function IndexOf(s: string, c: char): (k: nat)
    ensures k <= |s|
    ensures k < |s| ==> s[k] == c
  {
    IndexFrom(s, c, 0)
  }

  lemma {:induction false} IndexFromFirst(s: string, c: char, i: nat)
    requires i <= |s|
    ensures forall j :: i <= j < IndexFrom(s, c, i) ==> s[j] != c
    decreases |s| - i
  {
    if i < |s| && s[i] != c {
      IndexFromFirst(s, c, i + 1);
    }
  }

  /** No c comes before IndexOf(s, c). */
  lemma IndexOfFirst(s: string, c: char)
    ensures forall j :: 0 <= j < IndexOf(s, c) ==> s[j] != c
  {
    IndexFromFirst(s, c, 0);
  }

  lemma {:induction false} IndexFromFound(s: string, c: char, i: nat, j: nat)
    requires i <= j < |s| && s[j] == c
    ensures IndexFrom(s, c, i) <= j
    decreases j - i
  {
    if s[i] != c {
      IndexFromFound(s, c, i + 1, j);
    }
  }

  /** A text that holds c has its first c inside it. */
  lemma IndexOfFound(s: string, c: char)
    requires c in s
    ensures IndexOf(s, c) < |s|
  {
    var j :| 0 <= j < |s| && s[j] == c;
    IndexFromFound(s, c, 0, j);
  }

  /** A text without c is searched to its end. */
  lemma IndexOfFirstMissing(s: string, c: char)
    requires c !in s
    ensures IndexOf(s, c) == |s|
  {
  }

  /** Searching a + b from inside b is searching b. */
  lemma {:induction false} IndexFromShift(a: string, b: string, c: char, j: nat)
    requires j <= |b|
    ensures IndexFrom(a + b, c, |a| + j) == |a| + IndexFrom(b, c, j)
    decreases |b| - j
  {
    if j < |b| && b[j] != c {
      assert (a + b)[|a| + j] == b[j];
      IndexFromShift(a, b, c, j + 1);
    }
  }

  lemma {:induction false} IndexFromAppend(a: string, b: string, c: char, i: nat)
    requires i <= |a|
    ensures IndexFrom(a + b, c, i) ==
      if IndexFrom(a, c, i) < |a| then IndexFrom(a, c, i) else |a| + IndexOf(b, c)
    decreases |a| - i
  {
    if i == |a| {
      IndexFromShift(a, b, c, 0);
    } else {
      assert (a + b)[i] == a[i];
      if a[i] != c {
        IndexFromAppend(a, b, c, i + 1);
      }
    }
  }

  /** The first c of a + b is the first c of a, or, when a holds none, the
      first c of b shifted past a. */
  lemma IndexOfAppend(a: string, b: string, c: char)
    ensures IndexOf(a + b, c) == if IndexOf(a, c) < |a| then IndexOf(a, c) else |a| + IndexOf(b, c)
  {
    IndexFromAppend(a, b, c, 0);
  }

  /** The lines a text file yields when iterated: each ends with its '\n',
      except possibly the last one; an empty text has no lines. */
  function Lines(s: string): (ls: seq<string>)
    decreases |s|
  {
    if s == [] then []
    else
      var k := IndexOf(s, '\n');
      if k == |s| then [s] else [s[..k + 1]] + Lines(s[k + 1..])
  }

  /** A text with a '\n' yields its first line, through that '\n', then the
      lines of the rest. */
  lemma LinesStep(s: string, k: nat)
    requires k == IndexOf(s, '\n') && k < |s|
    ensures Lines(s) == [s[..k + 1]] + Lines(s[k + 1..])
  {
  }

  function Concat(ls: seq<string>): string
  {
    if ls == [] then [] else ls[0] + Concat(ls[1..])
  }

  lemma ConcatCons(x: string, ls: seq<string>)
    ensures Concat([x] + ls) == x + Concat(ls)
  {
    assert ([x] + ls)[1..] == ls;
  }

  /** Together the lines spell the text: nothing is lost or added. */
  lemma {:induction false} LinesConcat(s: string)
    ensures Concat(Lines(s)) == s
    decreases |s|
  {
    if s != [] {
      var k := IndexOf(s, '\n');
      if k < |s| {
        var first, rest := s[..k + 1], s[k + 1..];
        LinesStep(s, k);
        ConcatCons(first, Lines(rest));
        LinesConcat(rest);
        assert s == first + rest;
      }
    }
  }

  /** A line as iteration yields it: non-empty, with a '\n' at most as its
      last character. */
  predicate IsLine(l: string)
  {
    |l| > 0 && '\n' !in l[..|l| - 1]
  }

  lemma FirstLineIsLine(s: string, k: nat)
    requires k == IndexOf(s, '\n') && k < |s|
    ensures IsLine(s[..k + 1])
  {
    IndexOfFirst(s, '\n');
    assert s[..k + 1][..k] == s[..k];
    NotInPrefix(s, '\n', k);
  }

  lemma LastLineIsLine(s: string)
    requires s != [] && IndexOf(s, '\n') == |s|
    ensures IsLine(s)
  {
    IndexOfFirst(s, '\n');
    NotInPrefix(s, '\n', |s| - 1);
  }

  /** Every line is non-empty and holds a '\n' only as its last character. */
  lemma {:induction false} LinesShape(s: string)
    ensures forall i :: 0 <= i < |Lines(s)| ==> IsLine(Lines(s)[i])
    decreases |s|
  {
    if s != [] {
      var k := IndexOf(s, '\n');
      if k < |s| {
        LinesStep(s, k);
        FirstLineIsLine(s, k);
        var rest := Lines(s[k + 1..]);
        LinesShape(s[k + 1..]);
        forall i | 1 <= i < |Lines(s)| ensures IsLine(Lines(s)[i]) {
          assert Lines(s)[i] == rest[i - 1];
        }
      } else {
        LastLineIsLine(s);
      }
    }
  }

  /** Every line but the last ends with a '\n'. */
  lemma {:induction false} LinesEnd(s: string)
    ensures forall i :: 0 <= i < |Lines(s)| - 1 ==>
      |Lines(s)[i]| > 0 && Lines(s)[i][|Lines(s)[i]| - 1] == '\n'
    decreases |s|
  {
    if s != [] {
      var k := IndexOf(s, '\n');
      if k < |s| {
        LinesStep(s, k);
        var rest := Lines(s[k + 1..]);
        LinesEnd(s[k + 1..]);
        forall i | 0 <= i < |Lines(s)| - 1
          ensures |Lines(s)[i]| > 0 && Lines(s)[i][|Lines(s)[i]| - 1] == '\n'
        {
          if i > 0 {
            assert Lines(s)[i] == rest[i - 1];
          }
        }
      }
    }
  }

  lemma NotInPrefix(s: string, c: char, k: nat)
    requires k <= |s| && forall i :: 0 <= i < k ==> s[i] != c
    ensures c !in s[..k]
  {
    forall j | 0 <= j < k ensures s[..k][j] != c {
      assert s[..k][j] == s[j];
    }
  }

  /** Text made of complete lines is iterated line by line, then the rest. */
  lemma {:induction false} LinesAppend(a: string, b: string)
    requires a == [] || a[|a| - 1] == '\n'
    ensures Lines(a + b) == Lines(a) + Lines(b)
    decreases |a|
  {
    if a == [] {
      assert a + b == b;
    } else {
      var k := FirstLineOfAppend(a, b);
      var rest := a[k + 1..];
      assert rest == [] || rest[|rest| - 1] == '\n';
      LinesAppend(rest, b);
      LinesAppendStep(a, b, k);
    }
  }

  lemma FirstLineOfAppend(a: string, b: string) returns (k: nat)
    requires a != [] && a[|a| - 1] == '\n'
    ensures k == IndexOf(a, '\n') == IndexOf(a + b, '\n') && k < |a|
  {
    IndexFromFound(a, '\n', 0, |a| - 1);
    IndexOfAppend(a, b, '\n');
    k := IndexOf(a, '\n');
  }

  lemma LinesAppendStep(a: string, b: string, k: nat)
    requires k == IndexOf(a, '\n') == IndexOf(a + b, '\n') && k < |a|
    requires Lines(a[k + 1..] + b) == Lines(a[k + 1..]) + Lines(b)
    ensures Lines(a + b) == Lines(a) + Lines(b)
  {
    LinesStep(a, k);
    LinesOfAppendStep(a, b, k);
    ConsAppend(Lines(a + b), Lines(a), Lines(b), a[..k + 1], Lines(a[k + 1..]), Lines(a[k + 1..] + b));
  }

  lemma LinesOfAppendStep(a: string, b: string, k: nat)
    requires k == IndexOf(a + b, '\n') && k < |a|
    ensures Lines(a + b) == [a[..k + 1]] + Lines(a[k + 1..] + b)
  {
    var s := a + b;
    LinesStep(s, k);
    assert s[..k + 1] == a[..k + 1];
    assert s[k + 1..] == a[k + 1..] + b;
  }


  /** A line without an inner '\n' is one line of the file. */
  lemma LinesOfLine(l: string)
    requires '\n' !in l
    ensures Lines(l + "\n") == [l + "\n"]
  {
    var s := l + "\n";
    IndexOfFirstMissing(l, '\n');
    IndexOfAppend(l, "\n", '\n');
    assert s[..|l| + 1] == s;
  }

  /** The newline translation of a text file opened with newline=None:
      "\r\n" and a lone "\r" both read as "\n". */
  function UniversalNewlines(s: string): (r: string)
    ensures '\r' !in r
    decreases |s|
  {
    if s == [] then []
    else if s[0] == '\r' then
      if |s| >= 2 && s[1] == '\n' then "\n" + UniversalNewlines(s[2..])
      else "\n" + UniversalNewlines(s[1..])
    else [s[0]] + UniversalNewlines(s[1..])
  }

  /** Text without a carriage return reads back unchanged. */
  lemma {:induction false} UniversalNewlinesKeeps(s: string)
    requires '\r' !in s
    ensures UniversalNewlines(s) == s
    decreases |s|
  {
    if s != [] {
      assert s[0] in s;
      assert forall c :: c in s[1..] ==> c in s;
      UniversalNewlinesKeeps(s[1..]);
      assert s == [s[0]] + s[1..];
    }
  }

  function Digit(d: nat): (c: char)
    requires d < 10
    ensures '0' <= c <= '9'
  {
    ('0' as int + d) as char
  }

  /** str(n) for a non-negative int. */
  function Decimal(n: nat): (r: string)
    ensures |r| >= 1 && forall i :: 0 <= i < |r| ==> '0' <= r[i] <= '9'
  {
    if n < 10 then [Digit(n)] else Decimal(n / 10) + [Digit(n % 10)]
  }

  /** int(s) for a string of decimal digits. */
  function DecimalValue(s: string): nat
    requires forall i :: 0 <= i < |s| ==> '0' <= s[i] <= '9'
  {
    if s == [] then 0
    else DecimalValue(s[..|s| - 1]) * 10 + (s[|s| - 1] as int - '0' as int)
  }

  /** str(n) reads back as n. */
  lemma {:induction false} DecimalRoundTrip(n: nat)
    ensures DecimalValue(Decimal(n)) == n
  {
    if n >= 10 {
      DecimalRoundTrip(n / 10);
      var r := Decimal(n);
      assert r[..|r| - 1] == Decimal(n / 10);
    }
  }

  /** Digits are words: they hold no whitespace. */
  lemma DecimalIsWord(n: nat)
    ensures IsWord(Decimal(n))
  {
    var r := Decimal(n);
    forall i | 0 <= i < |r| ensures !IsSpace(r[i]) {
      assert '0' <= r[i] <= '9';
    }
  }

  /** The index of the last c in s, or -1 when there is none. */
  function LastIndexOf(s: string, c: char): (k: int)
    ensures -1 <= k < |s|
    ensures k >= 0 ==> s[k] == c
    ensures forall i :: k < i < |s| ==> s[i] != c
  {
    if s == [] then -1
    else if s[|s| - 1] == c then |s| - 1
    else LastIndexOf(s[..|s| - 1], c)
  }

  /** re.sub(r".+/", "", line) on a line without '\n': the greedy match runs
      from the start of the line to its last '/', provided at least one
      character precedes that '/'; otherwise nothing matches. */
  function StripThroughLastSlash(line: string): string
  {
    var k := LastIndexOf(line, '/');
    if k >= 1 then line[k + 1..] else line
  }

  /** re.sub(r".+/", "", s): '.' does not match '\n', so every line of s is
      rewritten on its own. */
  function StripPathPrefix(s: string): string
    decreases |s|
  {
    var k := IndexOf(s, '\n');
    if k == |s| then StripThroughLastSlash(s)
    else StripThroughLastSlash(s[..k]) + "\n" + StripPathPrefix(s[k + 1..])
  }

  /** A last c that lies in a is still the last one of a + b when b holds no c. */
  lemma {:induction false} LastIndexOfAppend(a: string, b: string, c: char)
    requires c !in b
    ensures LastIndexOf(a + b, c) == LastIndexOf(a, c)
    decreases |b|
  {
    if b == [] {
      assert a + b == a;
    } else {
      var s := a + b;
      assert s[|s| - 1] == b[|b| - 1] && b[|b| - 1] in b;
      assert s[..|s| - 1] == a + b[..|b| - 1];
      assert forall x :: x in b[..|b| - 1] ==> x in b;
      LastIndexOfAppend(a, b[..|b| - 1], c);
    }
  }

  /** For a one-line path whose directory part is not empty, the substitution
      leaves exactly the part after the last '/'. */
  lemma StripPathPrefixIsBaseName(dir: string, file: string)
    requires |dir| >= 2 && dir[|dir| - 1] == '/'
    requires '\n' !in dir + file && '/' !in file
    ensures StripPathPrefix(dir + file) == file
  {
    var s := dir + file;
    IndexOfFirstMissing(s, '\n');
    LastIndexOfAppend(dir, file, '/');
    assert LastIndexOf(s, '/') == |dir| - 1;
    assert s[|dir|..] == file;
  }

}
