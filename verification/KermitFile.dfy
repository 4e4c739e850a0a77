/** The buffered file reader beneath a Kermit session: one byte a call, with every line feed
    turned into a carriage return and a line feed when the file is text. */
module KermitFile {
  import opened KermitParity

  const CR: Byte := 13
  const LF: Byte := 10

  function Expand(s: seq<Byte>): seq<Byte> {
    if s == [] then []
    else (if s[0] == LF then [CR, LF] else [s[0]]) + Expand(s[1..])
  }

  /** What a file yields in each mode. */
  function Yield(text: bool, s: seq<Byte>): seq<Byte> {
    if text then Expand(s) else s
  }

  lemma {:induction false} ExpandConcat(s: seq<Byte>, t: seq<Byte>)
    ensures Expand(s + t) == Expand(s) + Expand(t)
  {
    if s == [] {
      assert s + t == t;
    } else {
      assert (s + t)[1..] == s[1..] + t;
      ExpandConcat(s[1..], t);
    }
  }

  lemma {:induction false} ExpandWithoutLF(s: seq<Byte>)
    requires LF !in s
    ensures Expand(s) == s
  {
    if s != [] {
      ExpandWithoutLF(s[1..]);
    }
  }

  /** A stretch without line feeds is yielded as it is; a line feed after it becomes two bytes. */
  lemma LineThenRest(file: seq<Byte>, start: nat, size: nat)
    requires start + size <= |file| && LF !in file[start..start + size]
    ensures Expand(file[start..]) == file[start..start + size] + Expand(file[start + size..])
    ensures start + size < |file| && file[start + size] == LF ==>
              Expand(file[start..]) == (file[start..start + size] + [CR, LF]) + Expand(file[start + size + 1..])
  {
    var line, rest := file[start..start + size], file[start + size..];
    assert file[start..] == line + rest;
    ExpandConcat(line, rest);
    ExpandWithoutLF(line);
    if start + size < |file| && file[start + size] == LF {
      assert rest[1..] == file[start + size + 1..];
      assert line + ([CR, LF] + Expand(rest[1..])) == (line + [CR, LF]) + Expand(rest[1..]);
    }
  }

  /** Taking every carriage return out of a file that had none gives back the file. */
  function DropCR(s: seq<Byte>): seq<Byte> {
    if s == [] then [] else (if s[0] == CR then [] else [s[0]]) + DropCR(s[1..])
  }

  lemma {:induction false} ExpandKeepsTheFile(s: seq<Byte>)
    requires CR !in s
    ensures DropCR(Expand(s)) == s
  {
    if s != [] {
      ExpandKeepsTheFile(s[1..]);
      var tail := Expand(s[1..]);
      if s[0] == LF {
        assert Expand(s) == [CR] + ([LF] + tail);
        assert ([CR] + ([LF] + tail))[1..] == [LF] + tail;
        assert ([LF] + tail)[1..] == tail;
      } else {
        assert ([s[0]] + tail)[1..] == tail;
      }
    }
  }

  /** Takes the carriage return out that comes right before a line feed. */
  function Contract(s: seq<Byte>): seq<Byte> {
    if s == [] then []
    else if |s| >= 2 && s[0] == CR && s[1] == LF then [LF] + Contract(s[2..])
    else [s[0]] + Contract(s[1..])
  }

  /** Whatever the file holds, it is got back from its expansion by taking out the carriage return
      before each line feed; and there is one before each line feed. */
  lemma {:induction false} ExpansionIsReversible(s: seq<Byte>)
    ensures Contract(Expand(s)) == s
    ensures Expand(s) != [] ==> Expand(s)[0] != LF
    ensures forall k :: 0 <= k < |Expand(s)| && Expand(s)[k] == LF ==> k > 0 && Expand(s)[k - 1] == CR
  {
    if s != [] {
      ExpansionIsReversible(s[1..]);
      var tail := Expand(s[1..]);
      if s[0] == LF {
        assert Expand(s) == [CR, LF] + tail && ([CR, LF] + tail)[2..] == tail;
      } else {
        assert Expand(s) == [s[0]] + tail && ([s[0]] + tail)[1..] == tail;
      }
    }
  }

  class Reader {
    const record: nat
    const zinbuf: array<Byte>
    var zincnt: nat
    var zinptr: nat
    const file: seq<Byte>
    var pos: nat

    ghost predicate Valid()
      reads this, zinbuf
    {
      && record >= 2 && zinbuf.Length == record + 1
      && zinptr + zincnt <= record && pos <= |file|
    }

    /** What is still to come: the rest of the buffer, then what the rest of the file yields. */
    ghost function Remaining(text: bool): seq<Byte>
      requires Valid()
      reads this, zinbuf
    {
      zinbuf[zinptr..zinptr + zincnt] + Yield(text, file[pos..])
    }

    /** Opening a file: nothing is buffered and nothing is read. */
    constructor (record: nat, contents: seq<Byte>)
      requires record >= 2
      ensures Valid() && fresh(zinbuf) && file == contents && this.record == record
      ensures forall text :: Remaining(text) == Yield(text, contents)
    {
      this.record := record;
      zinbuf := new Byte[record + 1](_ => NUL);
      zincnt, zinptr := 0, 0;
      file := contents;
      pos := 0;
      new;
      assert file[pos..] == contents && zinbuf[0..0] == [];
    }

    /** The next byte, or -1 when there is none; it never leaves the buffer. */
    method ZFillBuf(text: bool) returns (value: int)
      requires Valid()
      modifies this, zinbuf
      ensures Valid()
      ensures value == -1 <==> old(Remaining(text)) == []
      ensures value == -1 ==> Remaining(text) == []
      ensures value != -1 ==> 0 <= value < 256 && old(Remaining(text)) == [value] + Remaining(text)
    {
      if zincnt < 1 {
        var more := Refill(text);
        if !more {
          return -1;
        }
      }
      value := Take(text);
    }

    method Refill(text: bool) returns (more: bool)
      requires Valid() && zincnt == 0
      modifies this, zinbuf
      ensures Valid() && Remaining(text) == old(Remaining(text))
      ensures more <==> zincnt > 0
      ensures !more ==> Remaining(text) == []
    {
      assert Remaining(text) == Yield(text, file[pos..]);
      Fill(text);
      if zincnt == 0 {
        return false;
      }
      zinptr := 0;
      assert zinbuf[0..0 + zincnt] == zinbuf[..zincnt];
      return true;
    }

    method Take(text: bool) returns (value: Byte)
      requires Valid() && zincnt > 0
      modifies this`zincnt, this`zinptr
      ensures Valid()
      ensures old(Remaining(text)) == [value] + Remaining(text)
    {
      value := zinbuf[zinptr];
      assert zinbuf[zinptr..zinptr + zincnt] == [value] + zinbuf[zinptr + 1..zinptr + zincnt];
      zincnt := zincnt - 1;
      zinptr := zinptr + 1;
    }

    /** Refills the empty buffer; it stays empty only at the end of the file. */
    method Fill(text: bool)
      requires Valid() && zincnt == 0
      modifies this`zincnt, this`pos, zinbuf
      ensures zincnt <= record && pos <= |file|
      ensures zinbuf[..zincnt] + Yield(text, file[pos..]) == Yield(text, old(file[pos..]))
      ensures zincnt == 0 ==> pos == |file|
    {
      if text {
        FillLine();
      } else {
        FillRecord();
      }
    }

    method Getc() returns (value: int)
      requires pos <= |file|
      modifies this`pos
      ensures if old(pos) == |file| then value == -1 && pos == old(pos)
              else value == file[old(pos)] && pos == old(pos) + 1
    {
      if pos == |file| {
        return -1;
      }
      value := file[pos];
      pos := pos + 1;
    }

    /** Fills the buffer with one line, or with as much of it as leaves room for its end. */
    method FillLine()
      requires Valid() && zincnt == 0
      modifies this`zincnt, this`pos, zinbuf
      ensures zincnt <= record && zinbuf[zincnt] == NUL && pos <= |file|
      ensures zinbuf[..zincnt] + Expand(file[pos..]) == Expand(old(file[pos..]))
      ensures zincnt == 0 ==> pos == |file|
    {
      ghost var start := pos;
      var value := 0;
      zincnt := 0;
      while zincnt < record - 1
        invariant 0 <= zincnt <= record - 1 && pos == start + zincnt <= |file|
        invariant zinbuf[..zincnt] == file[start..pos] && LF !in file[start..pos]
        invariant value != LF
      {
        value := Getc();
        if value == -1 || value == LF {
          break;
        }
        zinbuf[zincnt] := value;
        zincnt := zincnt + 1;
      }
      ghost var line := zinbuf[..zincnt];
      LineThenRest(file, start, zincnt);
      if value == LF {
        PutLineEnd(line);
      }
      zinbuf[zincnt] := NUL;
    }

    method PutLineEnd(ghost line: seq<Byte>)
      requires record + 1 == zinbuf.Length && zincnt + 2 <= record && zinbuf[..zincnt] == line
      modifies this`zincnt, zinbuf
      ensures zincnt == old(zincnt) + 2 && zinbuf[..zincnt] == line + [CR, LF]
    {
      zinbuf[zincnt] := CR;
      zinbuf[zincnt + 1] := LF;
      zincnt := zincnt + 2;
    }

    /** Fills the buffer with the next bytes of the file as they are. */
    method FillRecord()
      requires Valid()
      modifies this`zincnt, this`pos, zinbuf
      ensures zincnt <= record && zinbuf[zincnt] == NUL && pos <= |file|
      ensures zinbuf[..zincnt] + file[pos..] == old(file[pos..])
      ensures zincnt == 0 ==> pos == |file|
    {
      zincnt := if |file| - pos < record then |file| - pos else record;
      forall i | 0 <= i < zincnt {
        zinbuf[i] := file[pos + i];
      }
      pos := pos + zincnt;
      zinbuf[zincnt] := NUL;
    }
  }

  /** Reading until there is no more, at whatever record size, yields exactly the file: with every
      line feed expanded when it is text, unchanged when it is not. */
  method ReadAll(record: nat, contents: seq<Byte>, text: bool) returns (bytes: seq<Byte>)
    requires record >= 2
    ensures bytes == Yield(text, contents)
  {
    bytes := [];
    var reader := new Reader(record, contents);
    ghost var goal := Yield(text, contents);
    ghost var rest := reader.Remaining(text);
    assert rest == goal;
    var value := reader.ZFillBuf(text);
    while value != -1
      invariant reader.Valid() && fresh(reader) && fresh(reader.zinbuf)
      invariant bytes + rest == goal
      invariant if value == -1 then rest == [] else 0 <= value < 256 && rest == [value] + reader.Remaining(text)
      decreases |rest|
    {
      rest := reader.Remaining(text);
      MoveOver(bytes, value, rest);
      bytes := bytes + [value];
      value := reader.ZFillBuf(text);
    }
  }

  lemma MoveOver(done: seq<Byte>, value: Byte, rest: seq<Byte>)
    ensures done + ([value] + rest) == (done + [value]) + rest
  {
  }
}
