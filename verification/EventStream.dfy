/**
  The bytes on the wire: the frames that Stream and writeEvent emit (internal/api/sse.go), and the
  EventSource algorithm that reads them, after sections 9.2.5 and 9.2.6 of the HTML Living Standard.
 */
module EventStream {
  import opened Text

  // ---- what the server writes ---------------------------------------------------------

  const PREAMBLE := "retry: 5000\n:ok\n\n"

  datatype Frame = Frame(id: nat, payload: string)

  function Bytes(f: Frame): string {
    "id: " + FormatNat(f.id) + "\n" + "data: " + f.payload + "\n" + "\n"
  }

  function AllBytes(frames: seq<Frame>): string {
    if frames == [] then "" else AllBytes(frames[..|frames| - 1]) + Bytes(frames[|frames| - 1])
  }

  function ParseLastEventID(raw: string): int {
    if raw == "" then 0
    else match ParseInt(raw)
      case None => 0
      case Some(id) => if id < 0 then 0 else id
  }

  // ---- how the browser reads it ---------------------------------------------------------

  // line: the characters of the unfinished line. idBuffer is the stream's last event ID buffer,
  // lastEventID the value the EventSource sends when it reconnects.
  datatype Parser = Parser(
    line: string, afterCR: bool, data: string, eventType: string, idBuffer: string,
    retry: Option<nat>, lastEventID: string, dispatched: seq<string>)

  /**
    The parser of a new connection. The standard gives every stream an empty ID buffer; a browser may also
    let it inherit the event ID that the EventSource already has.
   */
  function Opened(inherits: bool, lastEventID: string): Parser {
    Parser("", false, "", "", if inherits then lastEventID else "", None, lastEventID, [])
  }

  function Dispatch(p: Parser): Parser {
    var q := p.(lastEventID := p.idBuffer, data := "", eventType := "");
    // Only events of type message reach onmessage.
    if p.data == "" || p.eventType != "" then q
    else q.(dispatched := p.dispatched + [if p.data[|p.data| - 1] == '\n' then p.data[..|p.data| - 1] else p.data])
  }

  function FirstColon(line: string): (i: nat)
    ensures i <= |line| && (i < |line| ==> line[i] == ':') && ':' !in line[..i]
  {
    if line == "" || line[0] == ':' then 0 else 1 + FirstColon(line[1..])
  }

  function ProcessField(p: Parser, field: string, value: string): Parser {
    if field == "event" then p.(eventType := value)
    else if field == "data" then p.(data := p.data + value + "\n")
    else if field == "id" then if '\0' in value then p else p.(idBuffer := value)
    else if field == "retry" then if value != "" && AllDigits(value) then p.(retry := Some(DecimalValue(value))) else p
    else p
  }

  function ProcessLine(p: Parser, line: string): Parser {
    if line == "" then Dispatch(p)
    else
      var colon := FirstColon(line);
      if colon == 0 then p
      else if colon == |line| then ProcessField(p, line, "")
      else
        var value := line[colon + 1..];
        ProcessField(p, line[..colon], if value != "" && value[0] == ' ' then value[1..] else value)
  }

  function Feed(p: Parser, c: char): Parser {
    if c == '\n' && p.afterCR then p.(afterCR := false)
    else if c == '\n' || c == '\r' then ProcessLine(p.(line := "", afterCR := c == '\r'), p.line)
    else p.(line := p.line + [c], afterCR := false)
  }

  function Read(p: Parser, s: string): Parser {
    if s == "" then p else Feed(Read(p, s[..|s| - 1]), s[|s| - 1])
  }

  // ---- reading line by line ---------------------------------------------------------------

  predicate OneLine(s: string) { '\n' !in s && '\r' !in s }

  lemma ReadSnoc(p: Parser, s: string, c: char)
    ensures Read(p, s + [c]) == Feed(Read(p, s), c)
  {
    assert (s + [c])[..|s|] == s;
  }

  lemma {:induction false} ReadConcat(p: Parser, a: string, b: string)
    ensures Read(p, a + b) == Read(Read(p, a), b)
  {
    if b == "" {
      assert a + b == a;
    } else {
      var init, last := b[..|b| - 1], b[|b| - 1];
      ReadConcat(p, a, init);
      Regroup(a, b);
      ReadSnoc(p, a + init, last);
    }
  }

  /** Between lines, with nothing pending from a carriage return. */
  predicate AtLineStart(p: Parser) { p.line == "" && !p.afterCR }

  /** Between events. */
  predicate Ready(p: Parser) { AtLineStart(p) && p.data == "" && p.eventType == "" }

  lemma {:induction false} ReadPart(p: Parser, s: string)
    requires AtLineStart(p) && OneLine(s)
    ensures Read(p, s) == p.(line := s)
  {
    if s != "" {
      var init := s[..|s| - 1];
      assert OneLine(init);
      ReadPart(p, init);
      assert s == init + [s[|s| - 1]];
    }
  }

  lemma ReadLine(p: Parser, s: string)
    requires AtLineStart(p) && OneLine(s)
    ensures Read(p, s + "\n") == ProcessLine(p, s)
  {
    ReadPart(p, s);
    assert (s + "\n")[..|s|] == s;
  }

  lemma {:induction false} ColonAt(before: string, after: string)
    requires ':' !in before
    ensures FirstColon(before + ":" + after) == |before|
  {
    if before != "" {
      ColonAt(before[1..], after);
      assert (before + ":" + after)[1..] == before[1..] + ":" + after;
    }
  }

  lemma FieldLine(p: Parser, field: string, value: string)
    requires field != "" && ':' !in field
    ensures ProcessLine(p, field + ": " + value) == ProcessField(p, field, value)
  {
    var line := field + ": " + value;
    ColonAt(field, " " + value);
    assert line == field + ":" + (" " + value);
    assert line[..|field|] == field && line[|field| + 1..] == " " + value;
    assert (" " + value)[1..] == value;
  }

  lemma DigitsAreOneLine(s: string)
    requires AllDigits(s)
    ensures OneLine(s) && '\0' !in s
  {
  }

  lemma IdLine(p: Parser, id: nat)
    requires AtLineStart(p)
    ensures OneLine("id: " + FormatNat(id))
    ensures Read(p, "id: " + FormatNat(id) + "\n") == p.(idBuffer := FormatNat(id))
  {
    DigitsAreOneLine(FormatNat(id));
    ReadLine(p, "id: " + FormatNat(id));
    assert "id" + ": " + FormatNat(id) == "id: " + FormatNat(id);
    FieldLine(p, "id", FormatNat(id));
  }

  lemma DataLine(p: Parser, payload: string)
    requires AtLineStart(p) && OneLine(payload)
    ensures OneLine("data: " + payload)
    ensures Read(p, "data: " + payload + "\n") == p.(data := p.data + payload + "\n")
  {
    ReadLine(p, "data: " + payload);
    assert "data" + ": " + payload == "data: " + payload;
    FieldLine(p, "data", payload);
  }

  /** The parser once the whole frame has been read. */
  function AfterFrame(p: Parser, f: Frame): Parser {
    p.(idBuffer := FormatNat(f.id), lastEventID := FormatNat(f.id), dispatched := p.dispatched + [f.payload])
  }

  lemma BlankLine(p: Parser)
    requires AtLineStart(p)
    ensures Read(p, "\n") == Dispatch(p)
  {
    ReadLine(p, "");
    assert "" + "\n" == "\n";
  }

  lemma ReadThree(p: Parser, a: string, b: string, c: string)
    ensures Read(p, a + b + c) == Read(Read(Read(p, a), b), c)
  {
    ReadConcat(p, a, b);
    ReadConcat(p, a + b, c);
  }

  lemma DispatchOne(p: Parser, payload: string)
    requires p.data == payload + "\n" && p.eventType == ""
    ensures Dispatch(p) == p.(lastEventID := p.idBuffer, data := "", dispatched := p.dispatched + [payload])
  {
    assert p.data[..|p.data| - 1] == payload;
  }

  lemma ReadFrame(p: Parser, f: Frame)
    requires Ready(p) && OneLine(f.payload)
    ensures Read(p, Bytes(f)) == AfterFrame(p, f)
  {
    var l1, l2 := "id: " + FormatNat(f.id) + "\n", "data: " + f.payload + "\n";
    IdLine(p, f.id);
    var p1 := Read(p, l1);
    DataLine(p1, f.payload);
    var p2 := Read(p1, l2);
    assert "" + f.payload + "\n" == f.payload + "\n";
    BlankLine(p2);
    DispatchOne(p2, f.payload);
    ReadThree(p, l1, l2, "\n");
    FrameLines(f);
  }

  lemma FrameLines(f: Frame)
    ensures Bytes(f) == ("id: " + FormatNat(f.id) + "\n") + ("data: " + f.payload + "\n") + "\n"
  {
  }

  predicate SameEvents(p: Parser, q: Parser) {
    p.dispatched == q.dispatched && p.lastEventID == q.lastEventID
  }

  /** Two lines and a blank one, cut before the end: only whole lines have had an effect, and no dispatch. */
  lemma ReadCutLines(p: Parser, l1: string, l2: string, n: nat)
    requires AtLineStart(p) && OneLine(l1) && OneLine(l2) && n < |l1| + |l2| + 3
    requires var p1 := Read(p, l1 + "\n"); AtLineStart(p1) && SameEvents(p, p1) && SameEvents(p, Read(p1, l2 + "\n"))
    ensures SameEvents(p, Read(p, (l1 + "\n" + (l2 + "\n") + "\n")[..n]))
  {
    var all := l1 + "\n" + (l2 + "\n") + "\n";
    var p1 := Read(p, l1 + "\n");
    if n <= |l1| {
      assert all[..n] == l1[..n];
      ReadPart(p, l1[..n]);
    } else {
      var rest := n - |l1| - 1;
      var cut := (l2 + "\n")[..rest];
      assert all[..n] == l1 + "\n" + cut;
      ReadConcat(p, l1 + "\n", cut);
      if rest <= |l2| {
        assert cut == l2[..rest];
        ReadPart(p1, l2[..rest]);
      } else {
        assert cut == l2 + "\n";
      }
    }
  }

  /** A frame that is cut short dispatches nothing and does not move the last event ID. */
  lemma ReadCutFrame(p: Parser, f: Frame, n: nat)
    requires Ready(p) && OneLine(f.payload) && n < |Bytes(f)|
    ensures SameEvents(p, Read(p, Bytes(f)[..n]))
  {
    var l1, l2 := "id: " + FormatNat(f.id), "data: " + f.payload;
    IdLine(p, f.id);
    DataLine(Read(p, l1 + "\n"), f.payload);
    assert Bytes(f) == l1 + "\n" + (l2 + "\n") + "\n";
    ReadCutLines(p, l1, l2, n);
  }

  // ---- what was dispatched before does not matter ---------------------------------------------

  function Drained(p: Parser): Parser { p.(dispatched := []) }

  function Behind(before: seq<string>, p: Parser): Parser { p.(dispatched := before + p.dispatched) }

  lemma DispatchBehind(before: seq<string>, p: Parser)
    ensures Dispatch(Behind(before, p)) == Behind(before, Dispatch(p))
  {
    if p.data != "" {
      var payload := if p.data[|p.data| - 1] == '\n' then p.data[..|p.data| - 1] else p.data;
      Assoc(before, p.dispatched, [payload]);
    }
  }

  lemma ProcessLineBehind(before: seq<string>, p: Parser, line: string)
    ensures ProcessLine(Behind(before, p), line) == Behind(before, ProcessLine(p, line))
  {
    if line == "" { DispatchBehind(before, p); }
  }

  lemma FeedBehind(before: seq<string>, p: Parser, c: char)
    ensures Feed(Behind(before, p), c) == Behind(before, Feed(p, c))
  {
    if (c == '\n' || c == '\r') && !(c == '\n' && p.afterCR) {
      ProcessLineBehind(before, p.(line := "", afterCR := c == '\r'), p.line);
    }
  }

  lemma {:induction false} ReadBehind(before: seq<string>, p: Parser, s: string)
    ensures Read(Behind(before, p), s) == Behind(before, Read(p, s))
  {
    if s != "" {
      ReadBehind(before, p, s[..|s| - 1]);
      FeedBehind(before, Read(p, s[..|s| - 1]), s[|s| - 1]);
    }
  }

  /** Taking away what was dispatched before changes nothing else. */
  lemma ReadDrained(p: Parser, s: string)
    ensures Read(p, s) == Behind(p.dispatched, Read(Drained(p), s))
  {
    assert p.dispatched + [] == p.dispatched;
    ReadBehind(p.dispatched, Drained(p), s);
  }

  // ---- the preamble --------------------------------------------------------------------------

  const RETRY_TEXT := "retry: 5000"
  const OK_TEXT := ":ok"

  lemma PreambleLines()
    ensures PREAMBLE == RETRY_TEXT + "\n" + (OK_TEXT + "\n") + "\n"
    ensures OneLine(RETRY_TEXT) && OneLine(OK_TEXT)
  {
  }

  lemma FiveThousand()
    ensures AllDigits("5000") && DecimalValue("5000") == 5000
  {
    assert "5000"[..3] == "500" && "500"[..2] == "50" && "50"[..1] == "5" && "5"[..0] == "";
  }

  lemma RetryTextParts()
    ensures RETRY_TEXT == "retry" + ": " + "5000"
  {
  }

  lemma RetryLine(p: Parser)
    requires AtLineStart(p)
    ensures Read(p, RETRY_TEXT + "\n") == p.(retry := Some(5000))
  {
    PreambleLines();
    ReadLine(p, RETRY_TEXT);
    RetryField(p);
  }

  lemma RetryField(p: Parser)
    ensures ProcessLine(p, RETRY_TEXT) == p.(retry := Some(5000))
  {
    var field, value := "retry", "5000";
    RetryTextParts();
    FieldLine(p, field, value);
    RetryValue(p, value);
  }

  lemma RetryValue(p: Parser, value: string)
    requires value == "5000"
    ensures ProcessField(p, "retry", value) == p.(retry := Some(5000))
  {
    FiveThousand();
  }

  lemma OkLine(p: Parser)
    requires AtLineStart(p)
    ensures Read(p, OK_TEXT + "\n") == p
  {
    PreambleLines();
    ReadLine(p, OK_TEXT);
    ColonAt("", "ok");
    assert "" + ":" + "ok" == OK_TEXT;
  }

  lemma ReadPreamble(p: Parser)
    requires Ready(p)
    ensures Read(p, PREAMBLE) == p.(retry := Some(5000), lastEventID := p.idBuffer)
  {
    PreambleLines();
    RetryLine(p);
    var p1 := p.(retry := Some(5000));
    OkLine(p1);
    BlankLine(p1);
    ReadThree(p, RETRY_TEXT + "\n", OK_TEXT + "\n", "\n");
  }

  lemma ReadCutPreamble(p: Parser, n: nat)
    requires Ready(p) && n < |PREAMBLE|
    ensures SameEvents(p, Read(p, PREAMBLE[..n]))
  {
    PreambleLines();
    RetryLine(p);
    OkLine(p.(retry := Some(5000)));
    ReadCutLines(p, RETRY_TEXT, OK_TEXT, n);
  }

  // ---- whole streams, and streams cut anywhere ---------------------------------------------

  ghost predicate AllOneLine(frames: seq<Frame>) {
    forall i | 0 <= i < |frames| :: OneLine(frames[i].payload)
  }

  function Payloads(frames: seq<Frame>): seq<string> {
    if frames == [] then [] else Payloads(frames[..|frames| - 1]) + [frames[|frames| - 1].payload]
  }

  /** The last event ID after these frames, given the one before. */
  function LastID(frames: seq<Frame>, before: string): string {
    if frames == [] then before else FormatNat(frames[|frames| - 1].id)
  }

  lemma {:induction false} ReadFrames(p: Parser, frames: seq<Frame>)
    requires Ready(p) && AllOneLine(frames)
    ensures Ready(Read(p, AllBytes(frames)))
    ensures Read(p, AllBytes(frames)).dispatched == p.dispatched + Payloads(frames)
    ensures Read(p, AllBytes(frames)).lastEventID == LastID(frames, p.lastEventID)
  {
    if frames != [] {
      var init, last := frames[..|frames| - 1], frames[|frames| - 1];
      assert AllOneLine(init);
      ReadFrames(p, init);
      ReadConcat(p, AllBytes(init), Bytes(last));
      var q := Read(p, AllBytes(init));
      ReadFrame(q, last);
      assert Read(p, AllBytes(frames)) == AfterFrame(q, last);
      assert q.dispatched + [last.payload] == p.dispatched + Payloads(frames);
    }
  }

  /** Any prefix of a sequence of frames is some whole frames and a piece of the next one. */
  lemma {:induction false} ReadCutFrames(p: Parser, frames: seq<Frame>, n: nat) returns (k: nat)
    requires Ready(p) && AllOneLine(frames) && n <= |AllBytes(frames)|
    ensures k <= |frames| && (n == |AllBytes(frames)| ==> k == |frames|)
    ensures Read(p, AllBytes(frames)[..n]).dispatched == p.dispatched + Payloads(frames[..k])
    ensures Read(p, AllBytes(frames)[..n]).lastEventID == LastID(frames[..k], p.lastEventID)
    decreases |frames|
  {
    if n == |AllBytes(frames)| {
      k := |frames|;
      assert frames[..k] == frames && AllBytes(frames)[..n] == AllBytes(frames);
      ReadFrames(p, frames);
    } else {
      var init, last := frames[..|frames| - 1], frames[|frames| - 1];
      var bytes := AllBytes(init);
      assert AllOneLine(init);
      if n <= |bytes| {
        k := ReadCutFrames(p, init, n);
        assert AllBytes(frames)[..n] == bytes[..n] && frames[..k] == init[..k];
      } else {
        k := |init|;
        ReadFrames(p, init);
        var cut := Bytes(last)[..n - |bytes|];
        assert AllBytes(frames)[..n] == bytes + cut;
        ReadConcat(p, bytes, cut);
        ReadCutFrame(Read(p, bytes), last, n - |bytes|);
        assert frames[..k] == init;
      }
    }
  }

  /** What is left of the event ID after n characters that hold no whole frame. */
  function IDBeforeFrames(inherits: bool, lastEventID: string, n: nat): string {
    // The blank line that ends the preamble copies the ID buffer.
    if inherits || n < |PREAMBLE| then lastEventID else ""
  }

  lemma CutInPreamble(p: Parser, frames: seq<Frame>, n: nat)
    requires Ready(p) && n < |PREAMBLE|
    ensures SameEvents(p, Read(p, (PREAMBLE + AllBytes(frames))[..n]))
  {
    assert (PREAMBLE + AllBytes(frames))[..n] == PREAMBLE[..n];
    ReadCutPreamble(p, n);
  }

  lemma CutAfterPreamble(p: Parser, frames: seq<Frame>, n: nat) returns (k: nat)
    requires Ready(p) && AllOneLine(frames) && |PREAMBLE| <= n <= |PREAMBLE + AllBytes(frames)|
    ensures k <= |frames| && (n == |PREAMBLE + AllBytes(frames)| ==> k == |frames|)
    ensures var q := Read(p, (PREAMBLE + AllBytes(frames))[..n]);
            q.dispatched == p.dispatched + Payloads(frames[..k]) && q.lastEventID == LastID(frames[..k], p.idBuffer)
  {
    var m := n - |PREAMBLE|;
    ReadPreamble(p);
    k := ReadCutFrames(Read(p, PREAMBLE), frames, m);
    assert (PREAMBLE + AllBytes(frames))[..n] == PREAMBLE + AllBytes(frames)[..m];
    ReadConcat(p, PREAMBLE, AllBytes(frames)[..m]);
  }

  /**
    However early the connection breaks, the browser has seen exactly the first k payloads and will
    report the ID of the k-th; nothing is cut short when all bytes arrive. Before the first frame it keeps
    the ID it had exactly if its streams inherit it, or the cut falls before the preamble's blank line.
   */
  lemma StreamCutAnywhere(inherits: bool, lastEventID: string, frames: seq<Frame>, n: nat) returns (k: nat)
    requires AllOneLine(frames) && n <= |PREAMBLE + AllBytes(frames)|
    ensures k <= |frames| && (n == |PREAMBLE + AllBytes(frames)| ==> k == |frames|)
    ensures var p := Read(Opened(inherits, lastEventID), (PREAMBLE + AllBytes(frames))[..n]);
            && p.dispatched == Payloads(frames[..k])
            && p.lastEventID == LastID(frames[..k], IDBeforeFrames(inherits, lastEventID, n))
            && (k == 0 && lastEventID != "" ==> (p.lastEventID == lastEventID <==> inherits || n < |PREAMBLE|))
  {
    var p := Opened(inherits, lastEventID);
    if n < |PREAMBLE| {
      k := 0;
      CutInPreamble(p, frames, n);
      assert frames[..0] == [];
    } else {
      k := CutAfterPreamble(p, frames, n);
      assert [] + Payloads(frames[..k]) == Payloads(frames[..k]);
    }
  }

  /** The ID the browser sends back is the number the server stamped, for every ID a 64-bit counter can reach. */
  lemma LastEventIDRoundTrip(frames: seq<Frame>, before: string)
    requires frames != [] && frames[|frames| - 1].id <= MAX_INT64
    ensures ParseLastEventID(LastID(frames, before)) == frames[|frames| - 1].id
  {
    ParseFormat(frames[|frames| - 1].id);
  }

  /** A header that is empty, malformed, out of range or negative asks for no replay. */
  lemma OtherIDsAreZero(raw: string, n: nat)
    ensures ParseLastEventID("") == 0 && ParseLastEventID("-" + FormatNat(n)) == 0
    ensures ParseInt(raw).None? ==> ParseLastEventID(raw) == 0
    ensures n > 9223372036854775807 ==> ParseLastEventID(FormatNat(n)) == 0
  {
    ParseFormat(n);
    ParseNegative(n);
  }
}
