/** A text file opened for writing: a sequence of characters written at a
    position that can be moved back to the start, so that a later write
    overwrites what is already there. */
module TextFiles {

  /** The content of a file after s is written at position p of content c. */
  function Overwrite(c: string, p: nat, s: string): (r: string)
    requires p <= |c|
    ensures |r| == if p + |s| <= |c| then |c| else p + |s|
  {
    if p + |s| <= |c| then c[..p] + s + c[p + |s|..] else c[..p] + s
  }

  /** The characters at p .. p + |s| - 1 become s, the file grows where s runs
      past its end, and every other character stays as it was. */
  lemma OverwriteAt(c: string, p: nat, s: string)
    requires p <= |c|
    ensures forall i :: 0 <= i < |Overwrite(c, p, s)| ==>
      Overwrite(c, p, s)[i] == if p <= i < p + |s| then s[i - p] else c[i]
  {
  }

  /** An open file: its characters, kept in a buffer that grows on demand,
      and the position of the next write. */
  class TextFile {
    var buf: array<char>
    var size: nat
    var pos: nat

    ghost predicate Valid()
      reads this
    {
      size <= buf.Length && pos <= size
    }

    /** The characters of the file. */
    function Content(): string
      reads this, buf
      requires Valid()
    {
      buf[..size]
    }

    /** open(path, 'w'): an empty file, positioned at its start. */
    constructor ()
      ensures Valid() && fresh(buf)
      ensures Content() == [] && pos == 0
    {
      buf := new char[32];
      size, pos := 0, 0;
    }

    /** Makes room for n characters; the content and the position stay. */
    method Reserve(n: nat)
      requires Valid()
      modifies this
      ensures Valid() && fresh(buf) && n <= buf.Length
      ensures size == old(size) && pos == old(pos)
      ensures buf[..size] == old(buf[..size])
    {
      var grown := new char[if n < 2 * buf.Length then 2 * buf.Length else n];
      var i := 0;
      while i < size
        invariant 0 <= i <= size <= buf.Length <= grown.Length
        invariant buf == old(buf) && size == old(size) && pos == old(pos)
        invariant forall j :: 0 <= j < i ==> grown[j] == buf[j]
      {
        grown[i] := buf[i];
        i := i + 1;
      }
      buf := grown;
    }

    /** file.write(s): s replaces the characters from the current position on,
        the file grows where s runs past its end, and the position moves past s. */
    method Write(s: string)
      requires Valid()
      modifies this, buf
      ensures Valid() && (buf == old(buf) || fresh(buf))
      ensures pos == old(pos) + |s|
      ensures Content() == Overwrite(old(Content()), old(pos), s)
    {
      ghost var before := Content();
      if buf.Length < pos + |s| {
        Reserve(pos + |s|);
      }
      var i := 0;
      while i < |s|
        invariant 0 <= i <= |s|
        invariant Valid() && pos + |s| <= buf.Length
        invariant size == |before| && pos == old(pos)
        invariant buf == old(buf) || fresh(buf)
        invariant forall j :: 0 <= j < pos ==> buf[j] == before[j]
        invariant forall j :: pos <= j < pos + i ==> buf[j] == s[j - pos]
        invariant forall j :: pos + i <= j < size ==> buf[j] == before[j]
      {
        buf[pos + i] := s[i];
        i := i + 1;
      }
      if size < pos + |s| {
        size := pos + |s|;
      }
      pos := pos + |s|;
      ghost var after := Overwrite(before, old(pos), s);
      OverwriteAt(before, old(pos), s);
      assert |Content()| == |after|;
      forall j | 0 <= j < |after|
        ensures Content()[j] == after[j]
      {
      }
    }

    /** file.seek(0): the next write starts at the beginning of the file. */
    method Rewind()
      requires Valid()
      modifies this`pos
      ensures Valid() && pos == 0
      ensures Content() == old(Content())
    {
      pos := 0;
    }
  }
}
