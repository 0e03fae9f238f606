// The streaming plain-text writer: pending breaks, a pending space and a byte
// budget.
module PlainTextOutput {
  import opened Texts

  datatype Token = Token(text: string, preserve: bool, block: bool, raw: bool, lineBreak: bool, blockBreak: bool)

  // ----- specification

  datatype Writer = Writer(out: string, breaks: nat, space: bool, failed: bool)

  // A limit that is not positive means none.
  datatype Mode = Mode(limit: int, legacy: bool)

  const EMPTY := Writer("", 0, false, false)

  function Append(m: Mode, w: Writer, s: string): Writer {
    if w.failed then w
    else if m.limit > 0 && Bytes(s) > m.limit - Bytes(w.out) then w.(failed := true)
    else w.(out := w.out + s)
  }

  function AppendBreaks(m: Mode, w: Writer, n: nat): Writer
    decreases n
  {
    if n == 0 then w else AppendBreaks(m, Append(m, w, "\n"), n - 1)
  }

  // Newlines that already end the output, at most two.
  function Existing(m: Mode, out: string): nat {
    if m.legacy || out == "" || out[|out| - 1] != '\n' then 0
    else if |out| >= 2 && out[|out| - 2] == '\n' then 2
    else 1
  }

  function Flush(m: Mode, w: Writer): Writer {
    var existing := Existing(m, w.out);
    AppendBreaks(m, w, if w.breaks > existing then w.breaks - existing else 0).(breaks := 0)
  }

  function PutSpace(m: Mode, w: Writer): Writer {
    if w.space && w.out != "" then Append(m, w, " ") else w
  }

  function PutChar(m: Mode, w: Writer, c: char): Writer {
    if IsSpace(c) then
      if w.out != "" && w.breaks == 0 then w.(space := true) else w
    else
      Append(m, PutSpace(m, Flush(m, w)).(space := false), [c])
  }

  function PutProse(m: Mode, w: Writer, s: string): Writer
    decreases s
  {
    if s == "" || w.failed then w else PutProse(m, PutChar(m, w, s[0]), s[1..])
  }

  // A space is due in front of preserved text.
  predicate SpaceDue(w: Writer) {
    w.space && w.out != "" && w.breaks == 0
  }

  function PutPreserved(m: Mode, w: Writer, token: Token): Writer {
    var value := NormalizeLineEndings(token.text);
    var spaced := if SpaceDue(w) && (token.raw || !token.block) then Append(m, w, " ") else w;
    Append(m, Flush(m, spaced).(space := false),
           if token.raw && SpaceDue(w) then TrimLeftBlanks(value) else value)
  }

  function Put(m: Mode, w: Writer, token: Token): Writer {
    if w.failed then w
    else if token.blockBreak then
      w.(space := false, breaks := if w.out != "" then 2 else w.breaks)
    else if token.lineBreak then
      w.(space := false, breaks := if w.out != "" && w.breaks < 2 then w.breaks + 1 else w.breaks)
    else if token.text == "" then w
    else if token.preserve then PutPreserved(m, w, token)
    else PutProse(m, w, token.text)
  }

  function PutAll(m: Mode, w: Writer, tokens: seq<Token>): Writer
    decreases tokens
  {
    if tokens == [] then w else PutAll(m, Put(m, w, tokens[0]), tokens[1..])
  }

  // ----- the writer

  class Output {
    const maximumBytes: int
    const legacyBreaks: bool
    var err: bool
    var output: string
    var pendingBreaks: nat
    var pendingSpace: bool

    constructor (maximumBytes: int, legacyBreaks: bool)
      ensures State() == EMPTY && TheMode() == Mode(maximumBytes, legacyBreaks)
    {
      this.maximumBytes, this.legacyBreaks := maximumBytes, legacyBreaks;
      err, output, pendingBreaks, pendingSpace := false, "", 0, false;
    }

    ghost function State(): Writer
      reads this
    {
      Writer(output, pendingBreaks, pendingSpace, err)
    }

    ghost function TheMode(): Mode {
      Mode(maximumBytes, legacyBreaks)
    }

    method Write(token: Token)
      modifies this
      ensures State() == Put(TheMode(), old(State()), token)
    {
      if err {
        return;
      }
      if token.blockBreak {
        pendingSpace := false;
        if |output| > 0 {
          pendingBreaks := 2;
        }
        return;
      }
      if token.lineBreak {
        pendingSpace := false;
        if |output| > 0 && pendingBreaks < 2 {
          pendingBreaks := pendingBreaks + 1;
        }
        return;
      }
      if token.text == "" {
        return;
      }
      if token.preserve {
        WritePreserved(token);
        return;
      }
      WriteProse(token.text);
    }

    method WritePreserved(token: Token)
      modifies this
      ensures State() == PutPreserved(TheMode(), old(State()), token)
    {
      var value := NormalizeLineEndings(token.text);
      if token.raw && pendingSpace && |output| > 0 && pendingBreaks == 0 {
        WriteString(" ");
        value := TrimLeftBlanks(value);
      } else if !token.block && pendingSpace && |output| > 0 && pendingBreaks == 0 {
        WriteString(" ");
      }
      FlushBreaks();
      pendingSpace := false;
      WriteString(value);
    }

    method WriteProse(value: string)
      modifies this
      ensures State() == PutProse(TheMode(), old(State()), value)
    {
      var index := 0;
      while index < |value|
        invariant 0 <= index <= |value|
        invariant PutProse(TheMode(), State(), value[index..]) == PutProse(TheMode(), old(State()), value)
      {
        if err {
          return;
        }
        var character := value[index];
        assert value[index..][1..] == value[index + 1..];
        index := index + 1;
        if IsSpace(character) {
          if |output| > 0 && pendingBreaks == 0 {
            pendingSpace := true;
          }
          continue;
        }
        FlushBreaks();
        if pendingSpace && |output| > 0 {
          WriteString(" ");
        }
        pendingSpace := false;
        WriteString([character]);
      }
    }

    // Writes the pending breaks, counting newlines that already end the output.
    method FlushBreaks()
      modifies this
      ensures State() == Flush(TheMode(), old(State()))
    {
      var existing := 0;
      if !legacyBreaks {
        while existing < 2 && existing < |output| && output[|output| - 1 - existing] == '\n'
          invariant 0 <= existing <= 2 && existing <= |output|
          invariant existing >= 1 ==> output[|output| - 1] == '\n'
          invariant existing == 2 ==> output[|output| - 2] == '\n'
        {
          existing := existing + 1;
        }
      }
      assert existing == Existing(TheMode(), output);
      while pendingBreaks > existing
        invariant State().space == old(State()).space
        invariant AppendBreaks(TheMode(), State().(breaks := 0),
                               if pendingBreaks > existing then pendingBreaks - existing else 0)
               == AppendBreaks(TheMode(), old(State()).(breaks := 0),
                               if old(pendingBreaks) > existing then old(pendingBreaks) - existing else 0)
      {
        WriteString("\n");
        pendingBreaks := pendingBreaks - 1;
      }
      pendingBreaks := 0;
      BreaksIgnored(TheMode(), old(State()),
                    if old(pendingBreaks) > existing then old(pendingBreaks) - existing else 0);
    }

    method WriteString(value: string)
      modifies this`output, this`err
      ensures State() == Append(TheMode(), old(State()), value)
    {
      var ok := CanAppend(Bytes(value));
      if ok {
        output := output + value;
      }
    }

    method CanAppend(size: nat) returns (ok: bool)
      modifies this`err
      ensures ok == (!old(err) && !(maximumBytes > 0 && size > maximumBytes - Bytes(output)))
      ensures err == !ok
    {
      if err {
        return false;
      }
      if maximumBytes > 0 && size > maximumBytes - Bytes(output) {
        err := true;
        return false;
      }
      ok := true;
    }
  }

  // The number of pending breaks plays no part in what is appended.
  lemma {:induction false} BreaksIgnored(m: Mode, w: Writer, n: nat)
    ensures AppendBreaks(m, w, n).(breaks := 0) == AppendBreaks(m, w.(breaks := 0), n)
    decreases n
  {
    if n > 0 {
      BreaksIgnored(m, Append(m, w, "\n"), n - 1);
      assert Append(m, w, "\n").(breaks := 0) == Append(m, w.(breaks := 0), "\n");
    }
  }
}
