/** The tty line discipline (src/kernel/tty.c). */
module Tty {

  const LEN: nat := 4096
  const LF: nat := 10
  const CR: nat := 13
  const BS: nat := 8
  const SPACE: nat := 32
  const INTR: nat := 0x03      // ctrl-C
  const DEL: nat := 0x7F

  function Norm(c: nat): nat { if c == CR then LF else c }

  predicate Erases(c: nat) { c == DEL || c == BS }

  /** A line editor: carriage return ends a line, erase takes back a character, the interrupt character is no
      input, and what does not fit is dropped. */
  function Edit(line: seq<nat>, c: nat): (r: seq<nat>)
    ensures |line| < LEN ==> |r| < LEN
  {
    var c := Norm(c);
    if c == INTR then line
    else if Erases(c) then (if |line| > 0 then line[..|line| - 1] else line)
    else if |line| < LEN - 1 then line + [c]
    else line
  }

  function EditAll(bytes: seq<nat>): (r: seq<nat>)
    ensures |r| < LEN
  {
    if |bytes| == 0 then [] else Edit(EditAll(bytes[..|bytes| - 1]), bytes[|bytes| - 1])
  }

  /** Some byte ended a line. */
  predicate HasLine(bytes: seq<nat>) { exists i | 0 <= i < |bytes| :: Norm(bytes[i]) == LF }

  /** What the terminal is sent for a byte typed when the line holds n characters. */
  function Echo(n: nat, c: nat): seq<nat> {
    var c := Norm(c);
    if c == INTR then []
    else if Erases(c) then (if n > 0 then [BS, SPACE, BS] else [])
    else if c == LF then [CR, LF]
    else [c]
  }

  class Device {
    const buf: array<nat>
    var cursor: nat
    var dataReady: bool
    /** What was sent to the port. */
    var sent: seq<nat>
    /** The bytes typed since the last read. */
    ghost var since: seq<nat>

    constructor ()
      ensures Valid() && fresh(buf) && since == [] && sent == []
    {
      buf := new nat[LEN];
      cursor, dataReady, sent, since := 0, false, [], [];
    }

    /** The buffer is what a line editor makes of the bytes since the last read; a reader may take it exactly when a
        line ended. */
    ghost predicate Valid()
      reads this, buf
    {
      && buf.Length == LEN && cursor <= LEN - 1
      && buf[..cursor] == EditAll(since)
      && (dataReady <==> HasLine(since))
    }

    /** tty_new_data. Tells whether readers are woken, and whether the tty's tasks are interrupted. */
    method NewData(byte: nat) returns (wake: bool, interrupt: bool)
      requires Valid()
      modifies this, buf
      ensures Valid() && since == old(since) + [byte]
      ensures wake <==> Norm(byte) == LF
      ensures interrupt <==> byte == INTR
      ensures sent == old(sent) + Echo(old(cursor), byte)
      ensures wake ==> dataReady
    {
      hide EditAll, HasLine;
      wake, interrupt := false, false;
      var c := if byte == CR then LF else byte;
      Typed(since, byte);
      since := since + [byte];
      if c == INTR {
        return false, true;
      }
      if c == DEL || c == BS {
        if cursor > 0 {
          buf[cursor] := 0;
          cursor := cursor - 1;
          sent := sent + [BS, SPACE, BS];
        }
        return;
      }
      if c == LF { sent := sent + [CR]; }
      sent := sent + [c];
      if cursor < LEN - 1 {
        buf[cursor] := c;
        cursor := cursor + 1;
      }
      if c == LF {
        if cursor == LEN - 1 { buf[cursor] := c; }
        dataReady := true;
        wake := true;
      }
    }

    /** tty_readin once data is ready: up to len bytes of the line; the rest is thrown away. */
    method TakeLine(len: nat) returns (data: seq<nat>)
      requires Valid() && dataReady
      modifies this
      ensures Valid() && since == [] && !dataReady && sent == old(sent)
      ensures var line := EditAll(old(since)); data == line[..if len <= |line| then len else |line|]
      ensures HasLine(old(since))
    {
      dataReady := false;
      var n := if len <= cursor then len else cursor;
      data := buf[..n];
      cursor := 0;
      since := [];
    }
  }

  lemma Typed(bytes: seq<nat>, b: nat)
    ensures EditAll(bytes + [b]) == Edit(EditAll(bytes), b)
    ensures HasLine(bytes + [b]) <==> HasLine(bytes) || Norm(b) == LF
  {
    var more := bytes + [b];
    assert more[..|more| - 1] == bytes;
    if HasLine(bytes) {
      var i :| 0 <= i < |bytes| && Norm(bytes[i]) == LF;
      assert more[i] == bytes[i];
    }
    if Norm(b) == LF { assert more[|bytes|] == b; }
  }

  // ---- What the editor does to a whole line ------------------------------------------------

  predicate Plain(c: nat) { c != INTR && !Erases(c) && c != CR }

  lemma EditNothing()
    ensures EditAll([]) == []
  {}

  /** Typing plain characters that fit enters them as they are. */
  lemma {:induction false} PlainText(text: seq<nat>)
    requires |text| <= LEN - 1 && forall i | 0 <= i < |text| :: Plain(text[i])
    ensures EditAll(text) == text
  {
    hide EditAll;
    EditNothing();
    if |text| > 0 {
      var front, last := text[..|text| - 1], text[|text| - 1];
      PlainText(front);
      assert text == front + [last] && Plain(last);
      Typed(front, last);
    }
  }

  /** Both line ends, carriage return (13) and line feed (10), end the line with a line feed and make it ready. */
  lemma LineEnds(text: seq<nat>, c: nat)
    requires |text| < 4095 && (forall i | 0 <= i < |text| :: Plain(text[i])) && (c == 13 || c == 10)
    ensures EditAll(text + [c]) == text + [10] && HasLine(text + [c])
  {
    PlainText(text);
    Typed(text, c);
  }

  /** Backspace (8) and delete (127) take back the last character; control-C (3) enters nothing. */
  lemma EraseKeys(text: seq<nat>, c: nat)
    requires 0 < |text| <= 4095 && forall i | 0 <= i < |text| :: Plain(text[i])
    ensures c == 8 || c == 127 ==> EditAll(text + [c]) == text[..|text| - 1]
    ensures c == 3 ==> EditAll(text + [c]) == text
    ensures c == 8 || c == 127 || c == 3 ==> (HasLine(text + [c]) <==> HasLine(text))
  {
    PlainText(text);
    Typed(text, c);
  }

  /** A full line holds 4095 characters; more are dropped. */
  lemma Capacity(text: seq<nat>, c: nat)
    requires |text| == 4095 && (forall i | 0 <= i < |text| :: Plain(text[i])) && Plain(c)
    ensures EditAll(text) == text == EditAll(text + [c])
  {
    PlainText(text);
    Typed(text, c);
  }

  /** What the terminal is sent: CR LF for either line end, a rubbed-out character for either erase key if there is one
      to erase, nothing for control-C, and any other character as it is. */
  lemma EchoOf(n: nat, c: nat)
    ensures c == 13 || c == 10 ==> Echo(n, c) == [13, 10]
    ensures (c == 8 || c == 127) && n > 0 ==> Echo(n, c) == [8, 32, 8]
    ensures (c == 8 || c == 127) && n == 0 ==> Echo(n, c) == []
    ensures c == 3 ==> Echo(n, c) == []
    ensures c !in {3, 8, 10, 13, 127} ==> Echo(n, c) == [c]
  {}

  /** The characters that are entered as they are. */
  lemma PlainMeans(c: nat)
    ensures Plain(c) <==> c !in {3, 8, 13, 127}
  {}

  /** With the buffer full of 'a', typing 'b' and erasing it takes away an 'a'. */
  lemma EraseOnFullBuffer()
    ensures var full := seq(LEN - 1, _ => 97); EditAll(full) == full && EditAll(full + [98] + [DEL]) == full[..LEN - 2]
  {
    var full := seq(LEN - 1, _ => 97);
    PlainText(full);
    Typed(full, 98);
    Typed(full + [98], DEL);
  }

  /** A character and an erase cancel, whatever was typed before, unless the buffer was full. */
  lemma EraseUndoes(bytes: seq<nat>, c: nat, e: nat)
    requires Norm(c) != INTR && !Erases(c) && Erases(e)
    ensures EditAll(bytes + [c] + [e]) == EditAll(bytes) <==> |EditAll(bytes)| < LEN - 1
  {
    Typed(bytes, c);
    Typed(bytes + [c], e);
  }
}
