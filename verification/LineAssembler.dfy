/** The UART line assembler shared by the serial harnesses: a 160-character
    buffer filled by polls of at most 64 bytes. */
module LineAssembler {
  import opened Bytes

  const BUFFER_SIZE := 160
  const POLL_LIMIT := 64
  const LF: byte := 10
  const CR: byte := 13

  type Text = seq<byte>

  // ----- splitting a whole stream

  /** The complete lines of a stream, carriage returns dropped. */
  function Lines(s: Text): seq<Text> {
    if s == [] then []
    else if s[|s| - 1] == LF then Lines(s[..|s| - 1]) + [Tail(s[..|s| - 1])]
    else Lines(s[..|s| - 1])
  }

  /** What follows the last line feed. */
  function Tail(s: Text): Text {
    if s == [] || s[|s| - 1] == LF then []
    else if s[|s| - 1] == CR then Tail(s[..|s| - 1])
    else Tail(s[..|s| - 1]) + [s[|s| - 1]]
  }

  function WithoutCr(s: Text): Text {
    if s == [] then []
    else WithoutCr(s[..|s| - 1]) + if s[|s| - 1] == CR then [] else [s[|s| - 1]]
  }

  function Terminated(lines: seq<Text>): Text {
    if lines == [] then [] else Terminated(lines[..|lines| - 1]) + lines[|lines| - 1] + [LF]
  }

  predicate Unbroken(s: Text) { LF !in s && CR !in s }

  /** Lines and tail are the one way to cut the stream, without its carriage
      returns, at every line feed. */
  lemma {:induction false} LinesRebuildStream(s: Text)
    ensures Terminated(Lines(s)) + Tail(s) == WithoutCr(s)
    ensures Unbroken(Tail(s)) && forall line :: line in Lines(s) ==> Unbroken(line)
  {
    if s != [] {
      var front, last := s[..|s| - 1], s[|s| - 1];
      LinesRebuildStream(front);
      if last == LF {
        assert Lines(s)[..|Lines(front)|] == Lines(front);
        assert Terminated(Lines(s)) == Terminated(Lines(front)) + Tail(front) + [LF];
      } else if last != CR {
        assert Terminated(Lines(front)) + (Tail(front) + [last]) == Terminated(Lines(front)) + Tail(front) + [last];
      }
    }
  }

  lemma {:induction false} CutIsUnique(lines: seq<Text>, tail: Text, lines': seq<Text>, tail': Text)
    requires Unbroken(tail) && Unbroken(tail') && forall line :: line in lines + lines' ==> Unbroken(line)
    requires Terminated(lines) + tail == Terminated(lines') + tail'
    ensures lines == lines' && tail == tail'
    decreases |lines| + |lines'|
  {
    var whole := Terminated(lines) + tail;
    LastBreak(lines, tail);
    LastBreak(lines', tail');
    if lines == [] || lines' == [] {
      assert lines == [] && lines' == [];
      var none: Text := [];
      assert tail == none + tail == none + tail' == tail';
    } else {
      var n, n' := |lines| - 1, |lines'| - 1;
      assert tail == whole[|Terminated(lines)|..] && tail' == whole[|Terminated(lines')|..];
      LastLine(lines);
      LastLine(lines');
      assert Terminated(lines) == Terminated(lines') by {
        assert Terminated(lines) == whole[..|Terminated(lines)|] && Terminated(lines') == whole[..|Terminated(lines')|];
      }
      assert forall line :: line in lines[..n] + lines'[..n'] ==> line in lines + lines';
      assert lines[n] in lines + lines' && lines'[n'] in lines + lines';
      CutIsUnique(lines[..n], lines[n], lines'[..n'], lines'[n']);
      assert lines == lines[..n] + [lines[n]] && lines' == lines'[..n'] + [lines'[n']];
    }
  }

  /** The last line feed of the whole ends the last line. */
  lemma LastBreak(lines: seq<Text>, tail: Text)
    requires Unbroken(tail)
    ensures var whole, at := Terminated(lines) + tail, |Terminated(lines)|;
            && (forall i :: at <= i < |whole| ==> whole[i] != LF)
            && (lines != [] ==> at > 0 && whole[at - 1] == LF)
  {
    forall i | |Terminated(lines)| <= i < |Terminated(lines) + tail| ensures (Terminated(lines) + tail)[i] != LF {
      assert tail[i - |Terminated(lines)|] in tail;
    }
  }

  lemma LastLine(lines: seq<Text>)
    requires lines != []
    ensures Terminated(lines)[..|Terminated(lines)| - 1] == Terminated(lines[..|lines| - 1]) + lines[|lines| - 1]
  {
  }

  // ----- the harness

  datatype Event = Line(content: Text) | TooLong

  /** 159 characters fit; longer lines are refused as a whole. */
  function Verdict(line: Text): Event { if |line| < BUFFER_SIZE then Line(line) else TooLong }

  function Verdicts(lines: seq<Text>): (r: seq<Event>)
    ensures |r| == |lines|
  {
    seq(|lines|, i requires 0 <= i < |lines| => Verdict(lines[i]))
  }

  lemma VerdictsGrow(lines: seq<Text>, line: Text)
    ensures Verdicts(lines + [line]) == Verdicts(lines) + [Verdict(line)]
  {
  }

  class Harness {
    const line: array<byte>
    var lineLength: nat
    var lineOverflow: bool
    /** Bytes the UART driver holds or will still receive. */
    var pending: Text
    var events: seq<Event>
    /** The bytes read so far, in all polls. */
    ghost var history: Text

    /** The buffer holds the start of the current line, and the lines processed
        so far are exactly those of the whole history. */
    ghost predicate Valid()
      reads this, line
    {
      && line.Length == BUFFER_SIZE && lineLength < BUFFER_SIZE
      && events == Verdicts(Lines(history))
      && lineOverflow == (|Tail(history)| >= BUFFER_SIZE)
      && lineLength == (if lineOverflow then BUFFER_SIZE - 1 else |Tail(history)|)
      && line[..lineLength] == Tail(history)[..lineLength]
    }

    constructor (pending: Text)
      ensures Valid() && fresh(line) && history == [] && events == [] && this.pending == pending
    {
      line := new byte[BUFFER_SIZE](_ => 0);
      lineLength, lineOverflow, this.pending, events, history := 0, false, pending, [], [];
    }

    method ProcessLine()
      requires Valid()
      modifies `events
      ensures events == old(events) + [Verdict(Tail(history))]
    {
      if lineOverflow {
        events := events + [TooLong];
      } else {
        assert Tail(history)[..lineLength] == Tail(history);
        events := events + [Line(line[..lineLength])];
      }
    }

    /** One byte of the poll loop. */
    method Take(b: byte)
      requires Valid()
      modifies `lineLength, `lineOverflow, `events, `history, line
      ensures Valid() && history == old(history) + [b]
    {
      ghost var before := history;
      assert (before + [b])[..|before|] == before;
      if b == CR {
        history := history + [b];
        return;
      }
      if b == LF {
        ProcessLine();
        VerdictsGrow(Lines(before), Tail(before));
        lineLength, lineOverflow, history := 0, false, history + [b];
        return;
      }
      history := history + [b];
      if lineLength + 1 >= line.Length {
        lineOverflow := true;
        return;
      }
      line[lineLength] := b;
      lineLength := lineLength + 1;
      assert line[..lineLength] == line[..lineLength - 1] + [b];
    }

    /** A poll stops after 64 bytes, when the driver holds nothing, or when a
        read fails; `ready` is how many reads would succeed. */
    method Poll(ready: nat)
      requires Valid() && ready <= |pending|
      modifies this, line
      ensures Valid()
      ensures var taken := if ready < POLL_LIMIT then ready else POLL_LIMIT;
              && history == old(history) + old(pending)[..taken]
              && pending == old(pending)[taken..]
    {
      for attempts := 0 to POLL_LIMIT
        invariant Valid() && attempts <= ready
        invariant history == old(history) + old(pending)[..attempts]
        invariant pending == old(pending)[attempts..]
      {
        if attempts == ready {
          return;
        }
        var b := pending[0];
        pending := pending[1..];
        Take(b);
        assert old(pending)[..attempts + 1] == old(pending)[..attempts] + [b];
      }
    }

    /** However the polls divide the stream, the events are those of the whole
        stream read so far, cut into lines. */
    method Serve(polls: seq<nat>)
      requires Valid()
      modifies this, line
      ensures Valid() && history + pending == old(history) + old(pending)
      ensures events == Verdicts(Lines(history))
      ensures pending == [] ==> events == Verdicts(Lines(old(history) + old(pending)))
    {
      for i := 0 to |polls|
        invariant Valid() && history + pending == old(history) + old(pending)
      {
        ghost var was := pending;
        ghost var read := history;
        var ready := if polls[i] < |pending| then polls[i] else |pending|;
        Poll(ready);
        ghost var taken := if ready < POLL_LIMIT then ready else POLL_LIMIT;
        assert read + was == (read + was[..taken]) + was[taken..];
      }
      assert history + [] == history;
    }
  }

  /** Events depend on the stream alone; in particular a line of exactly 159
      characters is processed and one of 160 is not. */
  lemma LengthLimit(s: Text, line: Text)
    requires Unbroken(line)
    ensures Lines(s + [LF] + line + [LF]) == Lines(s + [LF]) + [line]
    ensures Verdict(line) == Line(line) <==> |line| <= 159
  {
    TailOfLine(s + [LF], line);
    assert (s + [LF] + line + [LF])[..|s + [LF] + line|] == s + [LF] + line;
    assert Tail(s + [LF]) == [] && [] + line == line;
  }

  lemma {:induction false} TailOfLine(s: Text, line: Text)
    requires Unbroken(line)
    ensures Tail(s + line) == Tail(s) + line && Lines(s + line) == Lines(s)
  {
    if line == [] {
      assert s + line == s;
    } else {
      var front, last := line[..|line| - 1], line[|line| - 1];
      assert last in line && forall b :: b in front ==> b in line;
      TailOfLine(s, front);
      assert (s + line)[..|s + line| - 1] == s + front;
    }
  }
}
