/** What a line is, for ReadLine and for the Scanner: the text up to a newline, and one CR before it dropped. */
module Lines {
  import opened Bytes

  /** scan.go: dropCR. */
  function DropCR(p: seq<byte>): seq<byte> {
    if p != [] && p[|p| - 1] == CR then p[..|p| - 1] else p
  }

  /** The text of the first line; without a newline it is the whole input. */
  function FirstLine(s: seq<byte>): seq<byte> {
    var i := IndexByte(s, LF);
    if i < 0 then s else DropCR(s[..i])
  }

  lemma DropCRJoins(p: seq<byte>, t: seq<byte>)
    requires t == [] ==> p == [] || p[|p| - 1] != CR
    ensures DropCR(p + t) == p + DropCR(t)
  {
    if t == [] {
      assert p + t == p;
    } else {
      assert (p + t)[|p + t| - 1] == t[|t| - 1];
      CutRight(p, t, |t| - 1);
    }
  }

  /** A fragment without a newline in front of the rest of its line, and not ending between CR and LF. */
  lemma FirstLineJoins(p: seq<byte>, s: seq<byte>)
    requires IndexByte(p, LF) == -1
    requires p != [] && p[|p| - 1] == CR ==> s != [] && s[0] == CR
    ensures FirstLine(p + s) == p + FirstLine(s) && AfterLine(p + s) == AfterLine(s)
  {
    AfterNoNewline(p, s);
    var i := IndexByte(s, LF);
    if i < 0 {
      IndexAppend(p, s, LF);
    } else {
      UpToNewline(p, s, i);
      DropCRJoins(p, s[..i]);
    }
  }

  lemma UpToNewline(p: seq<byte>, s: seq<byte>, i: nat)
    requires IndexByte(p, LF) == -1 && IndexByte(s, LF) == i
    ensures FirstLine(p + s) == DropCR(p + s[..i])
    ensures i == 0 ==> s[0] != CR
  {
    IndexFirst(s, LF, i);
    IndexAppend(p, s, LF);
    CutRight(p, s, i);
  }

  /** A line that ends at its first newline. */
  lemma FirstLineCut(line: seq<byte>, s: seq<byte>)
    requires IndexByte(line, LF) == |line| - 1 >= 0
    ensures FirstLine(line + s) == DropCR(line[..|line| - 1]) && AfterLine(line + s) == s
  {
    IndexAppend(line, s, LF);
    CutLeft(line, s, |line| - 1);
    CutLeft(line, s, |line|);
    assert line[|line|..] + s == s;
  }

  /** Lines, each with CR LF behind it. */
  function TextOf(lines: seq<seq<byte>>): seq<byte> {
    if lines == [] then [] else TextOf(lines[..|lines| - 1]) + (lines[|lines| - 1] + [13, 10])
  }

  lemma {:induction false} TextFront(lines: seq<seq<byte>>)
    requires lines != []
    ensures TextOf(lines) == lines[0] + [13, 10] + TextOf(lines[1..])
  {
    if |lines| > 1 {
      var most, last := lines[..|lines| - 1], lines[|lines| - 1];
      TextFront(most);
      assert most[1..] == lines[1..][..|lines| - 2];
      Reassociate(lines[0] + [13, 10], TextOf(most[1..]), last + [13, 10]);
    } else {
      assert lines[..0] == [] && lines[1..] == [];
    }
  }

  /** A text up to its first newline, with a CR in front of that or without. */
  lemma FirstOfText(line: seq<byte>, rest: seq<byte>)
    requires 10 !in line
    ensures FirstLine(line + [13, 10] + rest) == line && AfterLine(line + [13, 10] + rest) == rest
    ensures AfterLine(line + [10] + rest) == rest
    ensures FirstLine(line + [10] + rest) == line <==> line == [] || line[|line| - 1] != 13
    ensures FirstLine(line) == line && AfterLine(line) == []
  {
    var a, b := line + [13, 10], line + [10];
    IndexFirst(a, LF, |line| + 1);
    IndexFirst(b, LF, |line|);
    IndexFirst(line, LF, -1);
    hide IndexByte;
    FirstLineCut(a, rest);
    FirstLineCut(b, rest);
    assert a[..|line| + 1] == line + [13] && a[..|line| + 1][..|line|] == line;
    assert b[..|line|] == line;
  }
}
