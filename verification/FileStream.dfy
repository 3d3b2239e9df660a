/** The client's reader of a SEND response: frames of one file, each a header,
    a payload and a trailer, ended by a terminal trailer and, on an
    authenticated connection, a status line and a verified END. */
module FileStream {
  import opened Bytes
  import opened Wrappers

  datatype Header = Header(fileId: nat, comp: string, offset: int, size: int, wireSize: int)

  datatype Trailer = Trailer(fileId: nat, hasNext: bool, next: int)

  /** What a line read or a decoder read ends with. */
  datatype IoErr = Ok | Eof | Other(code: nat)

  /** One line read. */
  datatype Line = Line(text: string, err: IoErr)

  /** How one payload read goes: how many bytes it would give, whether it tells
      of the payload's end, and whether it fails. */
  datatype Pace = Pace(want: nat, tells: bool, fails: Option<nat>)

  /** The response: its lines, whether frame i's payload has a decoder and what
      it decodes to, how each payload read goes, and the parsers of lines. A
      finished list of lines reads as a bare EOF. */
  datatype Input = Input(lines: seq<Line>, decodes: nat -> bool, payload: nat -> seq<byte>, pace: nat -> Pace,
                         header: string -> Option<Header>, trailer: string -> Option<Trailer>,
                         isStatus: string -> bool, isErr: string -> bool, isOk: string -> bool,
                         auth: bool, endVerified: bool)

  datatype Error = MissingNextFrame | MissingOk | HeaderRead(err: IoErr) | HeaderCut | ErrStatus(line: string)
                 | UncleanEnd | UnexpectedStatus | ExtraFrame | BadHeader | NegativeSize | NegativeOffset
                 | NonContiguous | FileMismatch | OverRequested | NoDecoder | PastSize | ReadFailed(code: nat)
                 | SizeMismatch | TrailerRead(err: IoErr) | BadTrailer | TrailerMismatch | BadNext

  /** What opening a frame reports: a frame, the end of the response, or a
      failure. And what a Read reports. */
  datatype Opened = Frame | Complete | Fails(error: Error)
  datatype Outcome = Data(bytes: seq<byte>) | End | Failed(bytes: seq<byte>, error: Error)

  /** Frames of one file, one after the other. */
  ghost predicate Contiguous(frames: seq<Header>)
  {
    && (forall i :: 0 <= i < |frames| ==> frames[i].size >= 0 && frames[i].offset >= 0 && frames[i].fileId == frames[0].fileId)
    && (forall i :: 0 < i < |frames| ==> frames[i].offset == frames[i - 1].offset + frames[i - 1].size)
  }

  /** What the frames declare in all. */
  ghost function Declared(frames: seq<Header>): int
  {
    if frames == [] then 0 else Declared(frames[..|frames| - 1]) + frames[|frames| - 1].size
  }

  function LineAt(inp: Input, k: nat): Line
  {
    if k < |inp.lines| then inp.lines[k] else Line("", Eof)
  }

  /** How much of the response was taken: lines, payload reads and frames. */
  datatype Cursor = Cursor(line: nat, read: nat, frame: nat)

  /** The payloads of the first n frames. */
  ghost function Payloads(inp: Input, n: nat): seq<byte>
  {
    if n == 0 then [] else Payloads(inp, n - 1) + inp.payload(n - 1)
  }

  /** Frame i was opened by line 2i of the response. */
  ghost predicate OpenedBy(inp: Input, f: Header, i: nat)
  {
    2 * i < |inp.lines| && inp.lines[2 * i].err == Ok && inp.header(inp.lines[2 * i].text) == Some(f)
  }

  /** Frame i was closed by line 2i + 1: all it declared was its payload. */
  ghost predicate ClosedBy(inp: Input, f: Header, i: nat)
  {
    2 * i + 1 < |inp.lines| && Closes(inp, f, inp.lines[2 * i + 1]) && |inp.payload(i)| == f.size
  }

  /** The line is the frame's trailer. */
  ghost predicate Closes(inp: Input, f: Header, l: Line)
  {
    && l.err == Ok && inp.trailer(l.text).Some?
    && var t := inp.trailer(l.text).value;
       t.fileId == f.fileId && (t.hasNext && t.next != 0 ==> t.next == f.offset + f.size)
  }

  /** Line 2i + 1 is a trailer that names a next frame, or one that names
      none. */
  ghost predicate Continues(inp: Input, i: nat)
  {
    2 * i + 1 < |inp.lines| && var t := inp.trailer(inp.lines[2 * i + 1].text); t.Some? && !Terminal(t.value)
  }

  ghost predicate Concludes(inp: Input, i: nat)
  {
    2 * i + 1 < |inp.lines| && var t := inp.trailer(inp.lines[2 * i + 1].text); t.Some? && Terminal(t.value)
  }

  /** The frame names its codec, its payload has a decoder, and it claims no
      negative size on the wire. */
  ghost predicate Sound(inp: Input, f: Header, i: nat)
  {
    f.comp != "" && f.wireSize >= 0 && inp.decodes(i)
  }

  /** The frames are those of the response, in order, the first n of them
      closed, and each after the first was named by the trailer before it. */
  ghost predicate FromLines(inp: Input, frames: seq<Header>, n: int)
  {
    && (forall i :: 0 <= i < |frames| ==> OpenedBy(inp, frames[i], i))
    && (forall i :: 0 <= i < |frames| && i < n ==> ClosedBy(inp, frames[i], i))
    && (forall i :: 0 <= i < |frames| - 1 ==> Continues(inp, i))
    && (forall i :: 0 <= i < |frames| ==> Sound(inp, frames[i], i))
  }

  /** What is known of the file from its frames. */
  datatype Meta = Meta(fileId: nat, comp: string, size: int, wireSize: int)

  /** What the last trailer promised of the next frame. */
  datatype Due = Due(offsetKnown: bool, offset: int, frame: bool)

  /** What the frames take on the wire in all. */
  ghost function Wired(frames: seq<Header>): int
  {
    if frames == [] then 0 else Wired(frames[..|frames| - 1]) + frames[|frames| - 1].wireSize
  }

  /** The file's facts after n of the frames were closed: their sizes in all,
      and the codec if it was one. */
  ghost predicate Told(m: Meta, frames: seq<Header>, n: nat)
    requires frames != [] && n <= |frames|
  {
    && m.fileId == frames[0].fileId && m.size == Declared(frames[..n]) && m.wireSize == Wired(frames[..n])
    && m.comp == if forall i :: 0 <= i < n ==> frames[i].comp == frames[0].comp then frames[0].comp else "mixed"
  }

  const UNKNOWN := Meta(0, "", 0, 0)

  datatype State = State(at: Cursor, meta: Meta, frame: Option<Header>, logicalRead: int, declared: int, due: Due,
                         pendingErr: Option<Error>, err: Option<Error>, finished: bool, sawOk: bool)

  /** A trailer that names no next frame. */
  ghost predicate Terminal(t: Trailer)
  {
    !(t.hasNext && t.next != 0)
  }

  /** What every step keeps until a failure. `frames` are the frames opened and
      `out` the bytes returned so far. */
  ghost predicate Inv(inp: Input, s: State, frames: seq<Header>, out: seq<byte>)
  {
    && s.declared == Declared(frames) && frames != [] && s.at.frame == |frames|
    && s.meta.comp != "" && Told(s.meta, frames, if s.frame.Some? then |frames| - 1 else |frames|)
    && FromLines(inp, frames, if s.frame.Some? then |frames| - 1 else |frames|)
    && (if s.finished then Ended(inp, s, |frames|) else !s.sawOk && s.at.line == if s.frame.Some? then 2 * |frames| - 1 else 2 * |frames|)
    && Placed(inp, s, frames, out)
  }

  /** The returned bytes are the payloads of the frames before the current one,
      and the part of its own that was read. Between frames the next offset is
      known. */
  ghost predicate Placed(inp: Input, s: State, frames: seq<Header>, out: seq<byte>)
    requires frames != []
  {
    var n := |frames| - 1;
    if s.frame.Some? then
      && s.frame.value == frames[n] && 0 <= s.logicalRead <= frames[n].size && s.logicalRead <= |inp.payload(n)|
      && out == Payloads(inp, n) + inp.payload(n)[..s.logicalRead] && !s.due.frame
    else
      && out == Payloads(inp, n + 1) && s.due.offsetKnown && s.due.offset == frames[n].offset + frames[n].size
      && (if s.due.frame then Continues(inp, n) else Concludes(inp, n))
  }

  /** A response may end at this line: a plain connection's clean close, or an
      OK, with its END when authenticated. */
  ghost predicate CleanEnd(inp: Input, l: Line)
  {
    || (l == Line("", Eof) && !inp.auth)
    || (l.err == Ok && inp.isStatus(l.text) && !inp.isErr(l.text) && inp.isOk(l.text) && (inp.auth ==> inp.endVerified))
  }

  /** The response ends after n frames: the last one's trailer names no next
      frame, and the line after it is a clean end. */
  ghost predicate AtEnd(inp: Input, n: nat)
  {
    n > 0 && Concludes(inp, n - 1) && CleanEnd(inp, LineAt(inp, 2 * n))
  }

  /** Nothing past the line that ended the response was read. */
  ghost predicate Ended(inp: Input, s: State, n: nat)
  {
    && s.frame.None? && AtEnd(inp, n) && s.at.line == (if 2 * n < |inp.lines| then 2 * n + 1 else 2 * n)
    && (s.sawOk <==> LineAt(inp, 2 * n).err == Ok)
  }

  /** A response that is all it should be: frames of one file, one after the
      other and within the request, each with its payload and trailer, and a
      clean end after the last one. */
  ghost predicate WellFormed(inp: Input, requested: int, hs: seq<Header>)
  {
    && hs != [] && Contiguous(hs) && FromLines(inp, hs, |hs|) && AtEnd(inp, |hs|)
    && (requested > 0 ==> Declared(hs) <= requested)
  }

  ghost predicate Clean(inp: Input, requested: int)
  {
    exists hs :: WellFormed(inp, requested, hs)
  }

  /** The response is not well-formed, or one of its decoders fails. */
  ghost predicate Flawed(inp: Input, requested: int)
  {
    !Clean(inp, requested) || exists i :: inp.pace(i).fails.Some?
  }

  /** A payload read that may give nothing and say nothing. */
  ghost predicate Stalls(pace: Pace)
  {
    pace.want == 0 || !pace.tells
  }

  /** The headers a stream takes. */
  ghost predicate Acceptable(s: State, requested: int, h: Header)
  {
    && h.size >= 0 && h.wireSize >= 0 && h.offset >= 0 && (s.due.offsetKnown ==> h.offset == s.due.offset)
    && (s.meta != UNKNOWN ==> h.fileId == s.meta.fileId)
    && (requested > 0 ==> h.size <= requested - s.declared)
  }

  /** The frames are those of the response and follow one another in one file,
      all but the last closed; the bytes returned are the start of their
      payloads; and neither exceeds the request. */
  ghost predicate Bounded(inp: Input, requested: int, frames: seq<Header>, out: seq<byte>)
  {
    && Contiguous(frames) && FromLines(inp, frames, |frames| - 1) && out <= Payloads(inp, |frames|)
    && |out| <= Declared(frames) && (requested > 0 ==> Declared(frames) <= requested)
  }

  /** What holds of a stream, failure or not. */
  ghost predicate Safe(inp: Input, s: State, requested: int, frames: seq<Header>, out: seq<byte>)
  {
    && Bounded(inp, requested, frames, out) && s.at.line <= |inp.lines|
    && (s.err.None? && s.pendingErr.None? ==> Inv(inp, s, frames, out))
    && (s.finished ==> s.err.None? && s.pendingErr.None?)
    && (s.err.Some? || s.pendingErr.Some? ==> Flawed(inp, requested))
  }

  /** Closed frames' payloads are as long as declared. */
  lemma {:induction false} PayloadsDeclared(inp: Input, frames: seq<Header>, n: nat)
    requires FromLines(inp, frames, n) && n <= |frames|
    ensures |Payloads(inp, n)| == Declared(frames[..n])
  {
    if n > 0 {
      PayloadsDeclared(inp, frames, n - 1);
      assert frames[..n][..n - 1] == frames[..n - 1];
      assert ClosedBy(inp, frames[n - 1], n - 1);
    }
  }

  /** What was returned is within the frames. */
  lemma PlacedBounded(inp: Input, s: State, requested: int, frames: seq<Header>, out: seq<byte>)
    requires Inv(inp, s, frames, out) && Contiguous(frames) && (requested > 0 ==> Declared(frames) <= requested)
    ensures Bounded(inp, requested, frames, out)
  {
    hide Contiguous, OpenedBy, ClosedBy;
    var n := |frames| - 1;
    PayloadsDeclared(inp, frames, n);
    if s.frame.None? {
      PayloadsDeclared(inp, frames, n + 1);
    }
    assert frames[..n + 1] == frames;
    assert inp.payload(n)[..|inp.payload(n)|] == inp.payload(n);
  }

  lemma DeclaredSnoc(frames: seq<Header>, h: Header)
    ensures Declared(frames + [h]) == Declared(frames) + h.size
  {
    assert (frames + [h])[..|frames|] == frames;
  }

  lemma OneMoreFrame(frames: seq<Header>, h: Header)
    requires Contiguous(frames) && h.size >= 0 && h.offset >= 0
    requires frames != [] ==> h.fileId == frames[0].fileId && h.offset == frames[|frames| - 1].offset + frames[|frames| - 1].size
    ensures Contiguous(frames + [h]) && Declared(frames + [h]) == Declared(frames) + h.size
  {
    DeclaredSnoc(frames, h);
    var after := frames + [h];
    assert forall i :: 0 <= i < |frames| ==> after[i] == frames[i];
  }

  /** The line just read is a header where one is due. */
  ghost predicate AtHeader(inp: Input, s: State, requested: int, frames: seq<Header>, out: seq<byte>, h: Header)
  {
    && s.frame.None? && !s.finished && s.err.None? && s.pendingErr.None? && !s.sawOk
    && h.comp != "" && OpenedBy(inp, h, |frames|) && s.at.line == 2 * |frames| + 1 && s.at.frame == |frames|
    && (frames == [] ==> s.meta == UNKNOWN && s.declared == 0 && out == [] && !s.due.offsetKnown)
    && (frames != [] ==> s.due.frame && Inv(inp, s.(at := s.at.(line := 2 * |frames|)), frames, out)
                         && Bounded(inp, requested, frames, out))
  }

  /** The state once that header is opened. */
  ghost function OpenView(s: State, h: Header): State
  {
    s.(at := s.at.(frame := s.at.frame + 1), frame := Some(h), logicalRead := 0, declared := s.declared + h.size,
       meta := if s.meta == UNKNOWN then s.meta.(fileId := h.fileId, comp := h.comp) else s.meta,
       due := s.due.(offsetKnown := false, frame := false))
  }

  lemma HeaderAt(inp: Input, s: State, requested: int, frames: seq<Header>, out: seq<byte>, h: Header)
    requires AtHeader(inp, s, requested, frames, out, h)
    ensures s.at.frame == |frames|
  {
  }

  lemma FirstHeader(inp: Input, s: State, requested: int, h: Header)
    requires s == State(Cursor(1, 0, 0), UNKNOWN, None, 0, 0, Due(false, 0, false), None, None, false, false)
    requires OpenedBy(inp, h, 0) && h.comp != ""
    ensures AtHeader(inp, s, requested, [], [], h)
  {
  }

  lemma NextHeaderAt(inp: Input, s: State, t: State, requested: int, frames: seq<Header>, out: seq<byte>, h: Header)
    requires Safe(inp, s, requested, frames, out) && s.frame.None? && !s.finished && s.err.None? && s.pendingErr.None?
    requires t == s.(at := s.at.(line := s.at.line + 1)) && s.due.frame && h.comp != ""
    requires var l := LineAt(inp, s.at.line); l.err == Ok && inp.header(l.text) == Some(h)
    ensures AtHeader(inp, t, requested, frames, out, h)
  {
    hide Bounded, Declared, FromLines, Told, Placed;
    assert s == t.(at := t.at.(line := 2 * |frames|));
  }

  /** A header that passed its checks, opened. */
  lemma OpenKeeps(inp: Input, s: State, requested: int, frames: seq<Header>, out: seq<byte>, h: Header)
    requires AtHeader(inp, s, requested, frames, out, h) && Acceptable(s, requested, h) && inp.decodes(|frames|)
    ensures Safe(inp, OpenView(s, h), requested, frames + [h], out)
  {
    hide Contiguous, AtEnd, Continues, Concludes, Told, FromLines, Declared;
    var t := OpenView(s, h);
    NoFrames();
    ToldOpen(s.meta, t.meta, frames, h);
    LinesOpen(inp, frames, h);
    OneMoreFrame(frames, h);
    assert inp.payload(|frames|)[..0] == [];
    assert frames == [] ==> Payloads(inp, 0) == [];
    PlacedBounded(inp, t, requested, frames + [h], out);
  }

  lemma LinesOpen(inp: Input, frames: seq<Header>, h: Header)
    requires frames != [] ==> FromLines(inp, frames, |frames|) && Continues(inp, |frames| - 1)
    requires OpenedBy(inp, h, |frames|) && Sound(inp, h, |frames|)
    ensures FromLines(inp, frames + [h], |frames|)
  {
    hide OpenedBy, ClosedBy, Continues, Sound;
    assert forall i :: 0 <= i < |frames| ==> (frames + [h])[i] == frames[i];
  }

  /** Opening a frame tells nothing but, for the first one, file and codec. */
  lemma ToldOpen(m: Meta, m': Meta, frames: seq<Header>, h: Header)
    requires m' == if m == UNKNOWN then m.(fileId := h.fileId, comp := h.comp) else m
    requires if frames == [] then m == UNKNOWN else m != UNKNOWN && Told(m, frames, |frames|)
    ensures Told(m', frames + [h], |frames|)
  {
    var after := frames + [h];
    assert after[..|frames|] == frames[..|frames|] == frames;
    assert forall i :: 0 <= i < |frames| ==> after[i] == frames[i];
  }

  /** Closing the last frame adds it. */
  lemma ToldClosed(m: Meta, m': Meta, frames: seq<Header>, f: Header)
    requires frames != [] && f == frames[|frames| - 1] && Told(m, frames, |frames| - 1)
    requires m' == Meta(m.fileId, if m.comp != f.comp then "mixed" else m.comp, m.size + f.size, m.wireSize + f.wireSize)
    ensures Told(m', frames, |frames|)
  {
    var n := |frames| - 1;
    assert frames[..n + 1] == frames;
    if n == 0 {
      assert m.comp == f.comp;
    } else if forall i :: 0 <= i < n ==> frames[i].comp == frames[0].comp {
      assert frames[n].comp == f.comp;
    }
  }

  lemma NoFrames()
    ensures Contiguous([]) && Declared([]) == 0
  {
  }

  class Stream {
    const inp: Input
    const requested: int
    var at: Cursor
    var meta: Meta
    var frame: Option<Header>
    var logicalRead: int
    var declared: int
    var due: Due
    var pendingErr: Option<Error>
    var err: Option<Error>
    var finished: bool
    var sawOk: bool
    ghost var frames: seq<Header>
    ghost var out: seq<byte>

    ghost function V(): State
      reads this
    {
      State(at, meta, frame, logicalRead, declared, due, pendingErr, err, finished, sawOk)
    }

    ghost predicate Valid()
      reads this
    {
      Safe(inp, V(), requested, frames, out)
    }

    constructor (inp: Input, requested: int)
      ensures this.inp == inp && this.requested == requested && frames == [] && out == []
      ensures V() == State(Cursor(0, 0, 0), UNKNOWN, None, 0, 0, Due(false, 0, false), None, None, false, false)
    {
      this.inp, this.requested := inp, requested;
      at, meta, frame, logicalRead, declared := Cursor(0, 0, 0), UNKNOWN, None, 0, 0;
      due, pendingErr, err, finished, sawOk := Due(false, 0, false), None, None, false, false;
      frames, out := [], [];
    }

    /** The next line of the response. */
    method ReadLine() returns (l: Line)
      requires at.line <= |inp.lines|
      modifies this`at
      ensures at == old(at).(line := if old(at.line) < |inp.lines| then old(at.line) + 1 else old(at.line))
      ensures l == LineAt(inp, old(at.line))
    {
      if at.line < |inp.lines| {
        l := inp.lines[at.line];
        at := at.(line := at.line + 1);
      } else {
        l := Line("", Eof);
      }
    }

    /** Reads a header, or the end of the response. */
    method NextHeader() returns (h: Header, r: Opened)
      requires at.line <= |inp.lines| && frame.None? && due.offsetKnown
      modifies this`at, this`sawOk
      ensures at == old(at).(line := at.line) && old(at.line) <= at.line <= |inp.lines|
      ensures r.Frame? ==> at.line == old(at.line) + 1 && sawOk == old(sawOk) && inp.header(LineAt(inp, old(at.line)).text) == Some(h)
      ensures r.Complete? ==> at.line == (if old(at.line) < |inp.lines| then old(at.line) + 1 else old(at.line))
      ensures r.Complete? ==> sawOk == (old(sawOk) || LineAt(inp, old(at.line)).err == Ok)
      ensures r.Frame? <==> due.frame && var l := LineAt(inp, old(at.line)); l.err == Ok && inp.header(l.text).Some? && inp.header(l.text).value.comp != ""
      ensures r.Complete? <==> !due.frame && CleanEnd(inp, LineAt(inp, old(at.line)))
    {
      h := Header(0, "", 0, 0, 0);
      var l := ReadLine();
      if l.err != Ok {
        if l.err == Eof && l.text == "" {
          if due.frame {
            return h, Fails(MissingNextFrame);
          }
          if inp.auth {
            return h, Fails(MissingOk);
          }
          return h, Complete;
        }
        if l.err == Eof {
          return h, Fails(HeaderCut);
        }
        return h, Fails(HeaderRead(l.err));
      }
      if due.offsetKnown && !due.frame && inp.isStatus(l.text) {
        if inp.isErr(l.text) {
          return h, Fails(ErrStatus(l.text));
        }
        if inp.isOk(l.text) {
          if inp.auth && !inp.endVerified {
            return h, Fails(UncleanEnd);
          }
          sawOk := true;
          return h, Complete;
        }
        return h, Fails(UnexpectedStatus);
      }
      if due.offsetKnown && !due.frame {
        return h, Fails(ExtraFrame);
      }
      var parsed := inp.header(l.text);
      if parsed.None? || parsed.value.comp == "" {
        return h, Fails(BadHeader);
      }
      return parsed.value, Frame;
    }

    /** The checks a header must pass; the first one names the file. */
    method CheckFrame(h: Header) returns (e: Option<Error>)
      modifies this`meta
      ensures e.None? <==> Acceptable(old(V()), requested, h)
      ensures e.None? ==> meta == if old(meta) == UNKNOWN then old(meta).(fileId := h.fileId, comp := h.comp) else old(meta)
    {
      if h.size < 0 || h.wireSize < 0 {
        return Some(NegativeSize);
      }
      if h.offset < 0 {
        return Some(NegativeOffset);
      }
      if due.offsetKnown && h.offset != due.offset {
        return Some(NonContiguous);
      }
      if meta.fileId == 0 && meta.comp == "" && meta.size == 0 && meta.wireSize == 0 {
        meta := meta.(fileId := h.fileId, comp := h.comp);
      } else if h.fileId != meta.fileId {
        return Some(FileMismatch);
      }
      if requested > 0 && h.size > requested - declared {
        return Some(OverRequested);
      }
      return None;
    }

    /** Checks the header just read and opens its payload. On failure only the
        sticky error is left to set. */
    method OpenFrame(h: Header) returns (r: Opened)
      requires AtHeader(inp, V(), requested, frames, out, h)
      modifies this
      ensures !r.Complete? && out == old(out)
      ensures r.Frame? ==> Valid() && frames == old(frames) + [h] && V() == OpenView(old(V()), h)
      ensures r.Fails? ==> Flawed(inp, requested) && frames == old(frames) && V() == old(V()).(meta := meta, declared := declared)
    {
      hide AtHeader, Safe, Flawed, Acceptable;
      ghost var v := V();
      HeaderAt(inp, v, requested, frames, out, h);
      CleanAccepts(inp, v, requested, frames, out, h);
      var e := CheckFrame(h);
      if e.Some? {
        return Fails(e.value);
      }
      declared := declared + h.size;
      if !inp.decodes(at.frame) {
        return Fails(NoDecoder);
      }
      StartFrame(h, v);
      return Frame;
    }

    /** Turns to the payload of a header that passed. */
    method StartFrame(h: Header, ghost v: State)
      requires AtHeader(inp, v, requested, frames, out, h) && Acceptable(v, requested, h) && inp.decodes(|frames|)
      requires V() == v.(meta := OpenView(v, h).meta, declared := v.declared + h.size)
      modifies this`at, this`frame, this`logicalRead, this`due, this`frames
      ensures Valid() && frames == old(frames) + [h] && V() == OpenView(v, h)
    {
      hide AtHeader, Safe, Acceptable;
      at := at.(frame := at.frame + 1);
      frame, logicalRead, due := Some(h), 0, due.(offsetKnown := false, frame := false);
      OpenKeeps(inp, v, requested, frames, out, h);
      frames := frames + [h];
    }

    /** Reads the response's first header and opens its frame. */
    method Begin() returns (e: Option<Error>)
      requires frames == [] && out == []
      requires V() == State(Cursor(0, 0, 0), UNKNOWN, None, 0, 0, Due(false, 0, false), None, None, false, false)
      modifies this
      ensures e.None? ==> Valid() && err.None? && !finished && out == [] && frames != []
      ensures e.Some? ==> Flawed(inp, requested)
    {
      hide AtHeader, Safe, Bounded, Flawed;
      CleanBegins(inp, requested);
      var l := ReadLine();
      if l.err != Ok {
        return Some(HeaderRead(l.err));
      }
      var parsed := inp.header(l.text);
      if parsed.None? || parsed.value.comp == "" {
        return Some(BadHeader);
      }
      FirstHeader(inp, V(), requested, parsed.value);
      var r := OpenFrame(parsed.value);
      e := if r.Fails? then Some(r.error) else None;
    }

    /** Opens the next frame, or reports the response's end. */
    method OpenNext() returns (r: Opened)
      requires Valid() && frame.None? && !finished && err.None? && pendingErr.None?
      modifies this
      ensures out == old(out) && old(at.line) <= at.line <= |inp.lines| && old(frames) <= frames
      ensures unchanged(this`pendingErr, this`err, this`finished)
      ensures r.Frame? ==> Valid() && frame.Some?
      ensures r.Complete? ==> frames == old(frames) && V() == old(V()).(at := at, sawOk := sawOk) && at.frame == old(at.frame) && Ended(inp, V(), |frames|)
      ensures r.Fails? ==> frames == old(frames) && Flawed(inp, requested)
      ensures at.read == old(at.read)
    {
      hide Contiguous, Declared, CleanEnd, Concludes, Inv, Bounded, Flawed;
      Between(inp, V(), frames, out);
      CleanOpens(inp, V(), requested, frames, out);
      ghost var v := V();
      var h;
      h, r := NextHeader();
      if r.Frame? {
        NextHeaderAt(inp, v, V(), requested, frames, out, h);
        r := OpenFrame(h);
      }
    }

    /** The trailer's word on the next frame. */
    method Promise(t: Trailer, nextOffset: int) returns (e: Option<Error>)
      modifies this`due
      ensures e.None? <==> (t.hasNext && t.next != 0 ==> t.next == nextOffset)
      ensures e.None? ==> due == Due(true, nextOffset, if t.hasNext then t.next != 0 else old(due.frame))
    {
      if t.hasNext {
        if t.next == 0 {
          due := due.(frame := false);
        } else {
          if t.next != nextOffset {
            return Some(BadNext);
          }
          due := due.(frame := true);
        }
      }
      due := due.(offsetKnown := true, offset := nextOffset);
      return None;
    }

    /** The end of a frame whose payload is read out: its size and trailer. */
    method FinishFrame() returns (e: Option<Error>)
      requires Valid() && frame.Some? && !finished && err.None? && pendingErr.None?
      requires frames != [] && logicalRead == |inp.payload(|frames| - 1)|
      modifies this`at, this`due, this`meta, this`frame
      ensures at.read == old(at.read) && old(at.line) <= at.line <= |inp.lines|
      ensures e.None? ==> Valid() && frame.None? && at.line > old(at.line)
      ensures e.Some? ==> Flawed(inp, requested)
      ensures e.None? <==> old(logicalRead) == old(frame).value.size && Closes(inp, old(frame).value, LineAt(inp, old(at.line)))
    {
      hide Contiguous, Declared, AtEnd, Terminal, Inv, Bounded, Flawed, Told;
      ghost var v := V();
      CleanCloses(inp, v, requested, frames, out);
      var f := frame.value;
      if logicalRead != f.size {
        return Some(SizeMismatch);
      }
      var l := ReadLine();
      if l.err != Ok {
        return Some(TrailerRead(l.err));
      }
      var parsed := inp.trailer(l.text);
      if parsed.None? {
        return Some(BadTrailer);
      }
      var t := parsed.value;
      if t.fileId != f.fileId {
        return Some(TrailerMismatch);
      }
      e := Promise(t, f.offset + f.size);
      if e.Some? {
        return;
      }
      meta := Meta(meta.fileId, if meta.comp != f.comp then "mixed" else meta.comp, meta.size + f.size, meta.wireSize + f.wireSize);
      frame := None;
      FinishKeeps(inp, v, V(), frames, out, t);
    }

    /** Takes the next bytes of the payload. Bytes past what the frame declared
        are noticed and not handed out. */
    method Pull(room: nat) returns (bytes: seq<byte>, ioErr: IoErr, past: bool)
      requires Valid() && frame.Some? && !finished && err.None? && pendingErr.None?
      modifies this`at, this`logicalRead, this`out
      ensures Valid() && frames != [] && at.line == old(at.line) && out == old(out) + bytes && |bytes| <= room
      ensures past ==> bytes == []
      ensures past <==> old(logicalRead) == frame.value.size < |inp.payload(|frames| - 1)| && room > 0 && inp.pace(at.read).want > 0
      ensures ioErr == Eof && !past ==> logicalRead == |inp.payload(|frames| - 1)|
      ensures at.read == old(at.read) + 1
      ensures Unread(inp, old(V())) && room > 0 && inp.pace(at.read).want > 0 ==> bytes != []
      ensures ioErr == Ok && bytes == [] && !past && room > 0 ==> Stalls(inp.pace(at.read))
      ensures past || ioErr.Other? ==> Flawed(inp, requested)
    {
      hide Contiguous, Declared, AtEnd, Terminal, Inv, Bounded, Flawed, Closes, Payloads;
      ghost var v := V();
      CleanCloses(inp, v, requested, frames, out);
      Reading(inp, v, frames, out);
      var payload := inp.payload(at.frame - 1);
      var remaining := frame.value.size - logicalRead;
      var most := if remaining > 1 then remaining else 1;
      var cap := if room < most then room else most;
      at := at.(read := at.read + 1);
      bytes, ioErr := Decode(payload[logicalRead..], inp.pace(at.read), cap);
      past := false;
      if remaining <= 0 && |bytes| > 0 {
        bytes, past := [], true;
      }
      if |bytes| > 0 {
        logicalRead := logicalRead + |bytes|;
      }
      out := out + bytes;
      ReadKeeps(inp, v, V(), requested, frames, old(out), bytes);
      DecoderFails(inp, requested, at.read);
    }

    /** Reads the open frame's payload, and its trailer where it ends. */
    method ReadPayload(room: nat) returns (r: Option<Outcome>)
      requires Valid() && frame.Some? && !finished && err.None? && pendingErr.None?
      modifies this
      ensures old(at.line) <= at.line <= |inp.lines| && err.None? && !finished && frames == old(frames)
      ensures r.None? ==> Valid() && pendingErr.None? && out == old(out) && at.line > old(at.line)
      ensures r.Some? ==> !r.value.End? && Reported(inp, r.value, old(out), V(), frames, out, room)
      ensures r.Some? ==> if r.value.Failed? then Bounded(inp, requested, frames, out) && Flawed(inp, requested) else Valid()
      ensures at.read > old(at.read) && (r.Some? ==> Advances(inp, old(V()), V(), r.value, room))
      ensures Unread(inp, old(V())) && room > 0 && inp.pace(old(at.read) + 1).want > 0 ==> r.Some?
    {
      hide Contiguous, Declared, AtEnd, Terminal, Inv, Closes, LineAt, Bounded, Flawed;
      var bytes, ioErr, past := Pull(room);
      if past {
        return Some(Failed([], PastSize));
      }
      if ioErr == Ok {
        return Some(Data(bytes));
      }
      if ioErr != Eof {
        return Some(Failed(bytes, ReadFailed(ioErr.code)));
      }
      var e := FinishFrame();
      if |bytes| > 0 {
        pendingErr := e;
        return Some(Data(bytes));
      }
      if e.Some? {
        return Some(Failed([], e.value));
      }
      assert out == old(out);
      return None;
    }

    /** One turn of a read: open a frame if none is open, then read from it. */
    method Turn(room: nat) returns (r: Option<Outcome>)
      requires Valid() && !finished && err.None? && pendingErr.None?
      modifies this
      ensures old(at.line) <= at.line <= |inp.lines| && err.None? && old(frames) <= frames
      ensures r.None? ==> Valid() && !finished && pendingErr.None? && out == old(out) && at.line > old(at.line)
      ensures r.Some? ==> Reported(inp, r.value, old(out), V(), frames, out, room)
      ensures r.Some? ==> if r.value.Failed? then !finished && Bounded(inp, requested, frames, out) && Flawed(inp, requested) else Valid()
      ensures at.read >= old(at.read) && (r.Some? ==> Advances(inp, old(V()), V(), r.value, room) && (finished ==> r.value.End?))
      ensures Unread(inp, old(V())) && room > 0 && inp.pace(old(at.read) + 1).want > 0 ==> r.Some?
    {
      hide Contiguous, Declared, AtEnd, Terminal, Inv, Bounded, Flawed;
      if frame.None? {
        var o := OpenNext();
        if o.Fails? {
          return Some(Failed([], o.error));
        }
        if o.Complete? {
          ghost var u := V();
          finished := true;
          EndKeeps(inp, old(V()), u, V(), frames, out);
          return Some(End);
        }
      }
      r := ReadPayload(room);
    }

    method ReadOnce(room: nat) returns (r: Outcome)
      requires Valid() && err.None?
      modifies this
      ensures at.line <= |inp.lines| && err.None? && old(frames) <= frames
      ensures Reported(inp, r, old(out), V(), frames, out, room)
      ensures if r.Failed? then !finished && Bounded(inp, requested, frames, out) && Flawed(inp, requested) else Valid()
      ensures old(finished) ==> r == End && V() == old(V())
      ensures Advances(inp, old(V()), V(), r, room) && (finished ==> r.End?)
    {
      hide Contiguous, Declared, AtEnd, Terminal, Inv, Bounded, Flawed;
      if pendingErr.Some? {
        var e := pendingErr.value;
        pendingErr := None;
        assert out == old(out) + [];
        return Failed([], e);
      }
      if finished {
        EndStays(inp, V(), frames, out);
        return End;
      }
      var step := None;
      while step.None?
        invariant err.None? && at.line <= |inp.lines| && old(frames) <= frames
        invariant step.None? ==> Valid() && !finished && pendingErr.None? && out == old(out)
        invariant step.Some? ==> Reported(inp, step.value, old(out), V(), frames, out, room)
        invariant step.Some? ==> if step.value.Failed? then !finished && Bounded(inp, requested, frames, out) && Flawed(inp, requested) else Valid()
        invariant at.read >= old(at.read) && (step.Some? ==> Advances(inp, old(V()), V(), step.value, room) && (finished ==> step.value.End?))
        invariant step.None? && Unread(inp, old(V())) && room > 0 && inp.pace(old(at.read) + 1).want > 0 ==> V() == old(V())
        decreases step.None?, |inp.lines| - at.line
      {
        step := Turn(room);
      }
      r := step.value;
    }

    /** One call of the stream's reader. A failure settles every later call. */
    method Read(room: nat) returns (r: Outcome)
      requires Valid()
      modifies this
      ensures Valid() && Bounded(inp, requested, frames, out) && old(frames) <= frames
      ensures old(err).Some? ==> r == Failed([], old(err).value) && V() == old(V()) && out == old(out)
      ensures old(err).None? ==> Reported(inp, r, old(out), V(), frames, out, room)
      ensures old(finished) ==> r == End && V() == old(V()) && out == old(out)
      ensures if r.Failed? then err == Some(r.error) else err.None?
      ensures Advances(inp, old(V()), V(), r, room) && (finished <==> r.End?) && (r.Failed? ==> Flawed(inp, requested))
    {
      hide Contiguous, Declared, AtEnd, Terminal, Inv, Bounded, Flawed;
      if err.Some? {
        return Failed([], err.value);
      }
      r := ReadOnce(room);
      if r.Failed? {
        err := Some(r.error);
      }
    }
  }

  /** What a decoder's read gives: the next bytes of what is left of the
      payload, and its end only there. */
  method Decode(rest: seq<byte>, pace: Pace, cap: nat) returns (bytes: seq<byte>, ioErr: IoErr)
    ensures bytes <= rest && |bytes| <= cap && (bytes == [] <==> rest == [] || cap == 0 || pace.want == 0)
    ensures ioErr == Eof ==> bytes == rest
    ensures ioErr.Other? <==> pace.fails.Some?
    ensures bytes == rest && ioErr == Ok ==> !pace.tells
  {
    var n := if pace.want < cap then pace.want else cap;
    n := if n < |rest| then n else |rest|;
    bytes := rest[..n];
    ioErr := if pace.fails.Some? then Other(pace.fails.value) else if n == |rest| && pace.tells then Eof else Ok;
  }

  /** What a read reports. The end is reported only where the response ended
      cleanly. */
  ghost predicate Reported(inp: Input, r: Outcome, before: seq<byte>, s: State, frames: seq<Header>, out: seq<byte>, room: nat)
  {
    match r
    case End => out == before && s.finished && AtEnd(inp, |frames|)
    case Data(bytes) => out == before + bytes && |bytes| <= room
    case Failed(bytes, _) => out == before + bytes && |bytes| <= room
  }

  /** The open frame's payload goes on within its declared size. */
  ghost predicate Unread(inp: Input, s: State)
  {
    && s.err.None? && s.pendingErr.None? && !s.finished && s.frame.Some? && s.at.frame > 0
    && s.logicalRead < s.frame.value.size && s.logicalRead < |inp.payload(s.at.frame - 1)|
  }

  /** A read returns bytes where there are any and the decoder gives them, and
      comes back empty-handed only from a decoder that stalls. */
  ghost predicate Advances(inp: Input, s: State, t: State, r: Outcome, room: nat)
  {
    && s.at.read <= t.at.read
    && (r.Data? && r.bytes == [] && room > 0 ==> s.at.read < t.at.read && Stalls(inp.pace(t.at.read)))
    && (Unread(inp, s) && room > 0 && inp.pace(s.at.read + 1).want > 0 ==> !r.End? && r.bytes != [])
  }

  // ---- A well-formed response never fails ----

  /** The frames of a response are the first of those that make it
      well-formed. */
  lemma Agrees(inp: Input, requested: int, hs: seq<Header>, frames: seq<Header>, n: int)
    requires WellFormed(inp, requested, hs) && FromLines(inp, frames, n)
    ensures |frames| <= |hs| && frames == hs[..|frames|]
  {
    hide Contiguous, ClosedBy, CleanEnd, Sound;
    assert Concludes(inp, |hs| - 1);
    assert |hs| < |frames| ==> Continues(inp, |hs| - 1);
    forall i | 0 <= i < |frames| ensures frames[i] == hs[i] {
      assert OpenedBy(inp, frames[i], i) && OpenedBy(inp, hs[i], i);
    }
  }

  /** Between frames, the next line is the header that was promised or a clean
      end. */
  lemma CleanOpens(inp: Input, s: State, requested: int, frames: seq<Header>, out: seq<byte>)
    requires Inv(inp, s, frames, out) && s.frame.None? && !s.finished
    ensures !Flawed(inp, requested) ==>
              var l := LineAt(inp, 2 * |frames|);
              if s.due.frame then l.err == Ok && inp.header(l.text).Some? && inp.header(l.text).value.comp != ""
              else CleanEnd(inp, l)
  {
    hide Contiguous, ClosedBy, CleanEnd, Told, Declared;
    if hs :| WellFormed(inp, requested, hs) {
      var n := |frames|;
      Agrees(inp, requested, hs, frames, n);
      if n < |hs| {
        assert OpenedBy(inp, hs[n], n) && Sound(inp, hs[n], n) && Continues(inp, n - 1);
      }
    }
  }

  lemma CleanBegins(inp: Input, requested: int)
    ensures !Flawed(inp, requested) ==>
              var l := LineAt(inp, 0);
              l.err == Ok && inp.header(l.text).Some? && inp.header(l.text).value.comp != ""
  {
    hide Contiguous, ClosedBy, AtEnd, Declared;
    if hs :| WellFormed(inp, requested, hs) {
      assert OpenedBy(inp, hs[0], 0) && Sound(inp, hs[0], 0);
    }
  }

  lemma {:induction false} DeclaredWithin(hs: seq<Header>, n: nat)
    requires Contiguous(hs) && n <= |hs|
    ensures Declared(hs[..n]) <= Declared(hs)
    decreases |hs| - n
  {
    hide Declared, Contiguous;
    DeclaredUpTo(hs, n);
    if n < |hs| {
      DeclaredWithin(hs, n + 1);
      SizeOf(hs, n);
    } else {
      assert hs[..n] == hs;
    }
  }

  lemma SizeOf(hs: seq<Header>, n: nat)
    requires Contiguous(hs) && n < |hs|
    ensures hs[n].size >= 0 && hs[n].offset >= 0 && hs[n].fileId == hs[0].fileId
    ensures n > 0 ==> hs[n].offset == hs[n - 1].offset + hs[n - 1].size
  {
  }

  /** A header where one is due passes the checks and has a decoder. */
  lemma CleanAccepts(inp: Input, s: State, requested: int, frames: seq<Header>, out: seq<byte>, h: Header)
    requires AtHeader(inp, s, requested, frames, out, h)
    ensures Flawed(inp, requested) || (Acceptable(s, requested, h) && inp.decodes(|frames|))
  {
    hide Contiguous, ClosedBy, CleanEnd, Declared;
    if hs :| WellFormed(inp, requested, hs) {
      var n := |frames|;
      NoFrames();
      if n > 0 {
        Agrees(inp, requested, hs, frames, n);
        assert Continues(inp, n - 1);
        assert n == |hs| ==> Concludes(inp, n - 1);
      }
      assert OpenedBy(inp, hs[n], n) && Sound(inp, hs[n], n);
      SizeOf(hs, n);
      DeclaredUpTo(hs, n);
      DeclaredWithin(hs, n + 1);
      assert hs[..n] == frames;
    }
  }

  /** A frame whose payload is read out has its size and its trailer, and no
      payload is longer than its frame. */
  lemma CleanCloses(inp: Input, s: State, requested: int, frames: seq<Header>, out: seq<byte>)
    requires Inv(inp, s, frames, out) && s.frame.Some? && !s.finished
    ensures || Flawed(inp, requested)
            || (s.frame.value.size == |inp.payload(|frames| - 1)| && Closes(inp, s.frame.value, LineAt(inp, s.at.line)))
  {
    hide Contiguous, CleanEnd, Told, Declared, Closes;
    if hs :| WellFormed(inp, requested, hs) {
      var n := |frames| - 1;
      Agrees(inp, requested, hs, frames, n);
      assert frames[n] == hs[n];
      assert ClosedBy(inp, hs[n], n);
    }
  }

  lemma DecoderFails(inp: Input, requested: int, i: nat)
    ensures inp.pace(i).fails.Some? ==> Flawed(inp, requested)
  {
  }

  lemma FinishKeeps(inp: Input, s: State, t: State, frames: seq<Header>, out: seq<byte>, tr: Trailer)
    requires Inv(inp, s, frames, out) && s.frame.Some? && !s.finished && s.logicalRead == s.frame.value.size == |inp.payload(|frames| - 1)|
    requires t == s.(at := t.at, due := t.due, meta := t.meta, frame := None)
    requires t.at == s.at.(line := s.at.line + 1) && s.at.line < |inp.lines|
    requires inp.lines[s.at.line].err == Ok && inp.trailer(inp.lines[s.at.line].text) == Some(tr)
    requires Closes(inp, s.frame.value, inp.lines[s.at.line])
    requires t.meta == Meta(s.meta.fileId, if s.meta.comp != s.frame.value.comp then "mixed" else s.meta.comp,
                            s.meta.size + s.frame.value.size, s.meta.wireSize + s.frame.value.wireSize)
    requires t.due == Due(true, s.frame.value.offset + s.frame.value.size, if tr.hasNext then tr.next != 0 else s.due.frame)
    ensures Inv(inp, t, frames, out)
  {
    hide Declared, OpenedBy, Told;
    var n := |frames| - 1;
    ToldClosed(s.meta, t.meta, frames, frames[n]);
    assert inp.payload(n)[..s.logicalRead] == inp.payload(n);
    assert ClosedBy(inp, frames[n], n);
  }

  lemma Reading(inp: Input, s: State, frames: seq<Header>, out: seq<byte>)
    requires Inv(inp, s, frames, out) && s.frame.Some?
    ensures frames != [] && s.at.frame == |frames|
    ensures 0 <= s.logicalRead <= s.frame.value.size && s.logicalRead <= |inp.payload(|frames| - 1)|
  {
  }

  /** The payload's next bytes, within the frame's size. */
  lemma ReadKeeps(inp: Input, s: State, t: State, requested: int, frames: seq<Header>, out: seq<byte>, bytes: seq<byte>)
    requires Safe(inp, s, requested, frames, out) && s.err.None? && s.pendingErr.None?
    requires Inv(inp, s, frames, out) && s.frame.Some? && !s.finished && s.logicalRead + |bytes| <= s.frame.value.size
    requires frames != [] && 0 <= s.logicalRead <= |inp.payload(|frames| - 1)| && bytes <= inp.payload(|frames| - 1)[s.logicalRead..]
    requires t == s.(at := t.at, logicalRead := s.logicalRead + |bytes|) && t.at == s.at.(read := t.at.read)
    ensures Safe(inp, t, requested, frames, out + bytes)
  {
    hide Contiguous, Declared, FromLines, Told, Flawed;
    var n := |frames| - 1;
    var p := inp.payload(n);
    assert p[..s.logicalRead] + bytes == p[..s.logicalRead + |bytes|];
    assert out + bytes == Payloads(inp, n) + p[..t.logicalRead];
    PlacedBounded(inp, t, requested, frames, out + bytes);
  }

  lemma EndKeeps(inp: Input, s: State, u: State, t: State, frames: seq<Header>, out: seq<byte>)
    requires Inv(inp, s, frames, out) && s.frame.None? && !s.finished && Ended(inp, u, |frames|)
    requires u == s.(at := u.at, sawOk := u.sawOk) && u.at.frame == s.at.frame && t == u.(finished := true)
    ensures Inv(inp, t, frames, out) && AtEnd(inp, |frames|)
  {
  }

  lemma EndStays(inp: Input, s: State, frames: seq<Header>, out: seq<byte>)
    requires Inv(inp, s, frames, out) && s.finished
    ensures AtEnd(inp, |frames|)
  {
  }

  /** Between frames. */
  lemma Between(inp: Input, s: State, frames: seq<Header>, out: seq<byte>)
    requires Inv(inp, s, frames, out) && s.frame.None? && !s.finished
    ensures s.due.offsetKnown && frames != [] && (!s.due.frame ==> Concludes(inp, |frames| - 1))
    ensures s.at.line == 2 * |frames| && s.at.frame == |frames| && !s.sawOk
  {
  }

  /** Byte j of those returned: the frame that covers it by offset, and that it
      is the byte of that frame's payload there. */
  lemma ByteAt(inp: Input, requested: int, frames: seq<Header>, out: seq<byte>, j: nat) returns (i: nat)
    requires Bounded(inp, requested, frames, out) && j < |out|
    ensures i < |frames| && frames[i].offset <= frames[0].offset + j < frames[i].offset + frames[i].size
    ensures var k := frames[0].offset + j - frames[i].offset;
            k < |inp.payload(i)| && out[j] == inp.payload(i)[k]
  {
    hide Contiguous, OpenedBy, Closes, Declared;
    assert frames[..|frames|] == frames;
    i := Covering(frames, |frames|, j);
    PayloadsDeclared(inp, frames, i);
    FromHere(inp, |frames|, i);
    assert i < |frames| - 1 ==> ClosedBy(inp, frames[i], i);
    assert Payloads(inp, |frames|)[j] == inp.payload(i)[j - |Payloads(inp, i)|];
  }

  lemma {:induction false} Covering(frames: seq<Header>, n: nat, j: nat) returns (i: nat)
    requires Contiguous(frames) && n <= |frames| && j < Declared(frames[..n])
    ensures i < n && Declared(frames[..i]) <= j < Declared(frames[..i]) + frames[i].size
    ensures frames[i].offset == frames[0].offset + Declared(frames[..i])
  {
    hide Declared;
    DeclaredUpTo(frames, n - 1);
    if j < Declared(frames[..n - 1]) {
      i := Covering(frames, n - 1, j);
    } else {
      i := n - 1;
      OffsetIs(frames, i);
    }
  }

  lemma DeclaredUpTo(frames: seq<Header>, k: int)
    ensures k < 0 ==> Declared(frames[..0]) == 0
    ensures 0 <= k < |frames| ==> Declared(frames[..k + 1]) == Declared(frames[..k]) + frames[k].size
  {
    if 0 <= k < |frames| {
      assert frames[..k + 1][..k] == frames[..k];
    }
  }

  lemma {:induction false} OffsetIs(frames: seq<Header>, k: nat)
    requires Contiguous(frames) && k < |frames|
    ensures frames[k].offset == frames[0].offset + Declared(frames[..k])
  {
    hide Declared;
    DeclaredUpTo(frames, k - 1);
    if k > 0 {
      OffsetIs(frames, k - 1);
    }
  }

  /** Frame i's payload within all of them. */
  lemma {:induction false} FromHere(inp: Input, n: nat, i: nat)
    requires i < n
    ensures |Payloads(inp, i)| + |inp.payload(i)| <= |Payloads(inp, n)|
    ensures Payloads(inp, n)[|Payloads(inp, i)|..|Payloads(inp, i)| + |inp.payload(i)|] == inp.payload(i)
  {
    if i < n - 1 {
      FromHere(inp, n - 1, i);
    }
  }

  function Returned(rs: seq<Outcome>): (s: seq<byte>)
  {
    if rs == [] then []
    else
      var last := rs[|rs| - 1];
      Returned(rs[..|rs| - 1]) + (if last.End? then [] else last.bytes)
  }

  /** A failure or the end, once reported, is all that is ever reported. */
  ghost predicate Sticky(rs: seq<Outcome>)
  {
    forall i, j :: 0 <= i < j < |rs| ==>
      (rs[i].Failed? ==> rs[j] == Failed([], rs[i].error)) && (rs[i].End? ==> rs[j] == End)
  }

  /** Byte j returned is, at its offset in the file, the byte of the payload of
      the frame that covers that offset. */
  ghost predicate Located(inp: Input, frames: seq<Header>, out: seq<byte>, j: nat)
    requires j < |out| && frames != []
  {
    exists i: nat :: i < |frames| && Covers(inp, frames[i], i, frames[0].offset + j, out[j])
  }

  ghost predicate Covers(inp: Input, f: Header, i: nat, offset: int, b: byte)
  {
    && f.offset <= offset < f.offset + f.size && offset - f.offset < |inp.payload(i)|
    && b == inp.payload(i)[offset - f.offset]
  }

  /** Enough reads, none of them of no room: the response is well-formed, no
      decoder fails, and all but some reads in `quiet` find one that does not
      stall. */
  ghost predicate Enough(inp: Input, requested: int, rooms: seq<nat>, hs: seq<Header>, quiet: set<nat>)
  {
    && WellFormed(inp, requested, hs) && (forall i :: inp.pace(i).fails.None?)
    && (forall i :: Stalls(inp.pace(i)) ==> i in quiet)
    && Positive(rooms) && |rooms| > |Payloads(inp, |hs|)| + |quiet|
  }

  ghost predicate Positive(rooms: seq<nat>)
  {
    forall k :: 0 <= k < |rooms| ==> rooms[k] > 0
  }

  /** Any response and any reads of it. */
  method Run(inp: Input, requested: int, rooms: seq<nat>) returns (s: Stream, e: Option<Error>, rs: seq<Outcome>)
    ensures fresh(s) && s.inp == inp && s.requested == requested
    ensures e.None? ==> |rs| == |rooms| && Sticky(rs) && Returned(rs) == s.out && Bounded(inp, requested, s.frames, s.out)
    ensures e.None? ==> s.frames != [] && forall j :: 0 <= j < |s.out| ==> Located(inp, s.frames, s.out, j)
    ensures e.None? && End in rs ==>
              && WellFormed(inp, requested, s.frames) && Ended(inp, s.V(), |s.frames|)
              && s.out == Payloads(inp, |s.frames|) && Told(s.meta, s.frames, |s.frames|)
    ensures e.Some? || (exists k :: 0 <= k < |rs| && rs[k].Failed?) ==> Flawed(inp, requested)
    ensures forall hs, quiet :: Enough(inp, requested, rooms, hs, quiet) ==>
              e.None? && End in rs && s.frames == hs && Returned(rs) == Payloads(inp, |hs|)
  {
    hide Safe, Bounded, Ended, FromLines, Located, Payloads, Flawed, Enough, WellFormed, Told, Tally, Advances, Reported;
    s := new Stream(inp, requested);
    rs := [];
    e := s.Begin();
    ghost var stalls: set<nat> := {};
    if e.Some? {
      NeverEnough(inp, requested, rooms);
      return;
    }
    Settled(inp, s.V(), requested, s.frames, s.out);
    TallyBegins(inp, requested, rooms, s.V(), s.out);
    for i := 0 to |rooms|
      invariant fresh(s) && s.inp == inp && s.requested == requested && s.Valid() && |rs| == i && s.frames != []
      invariant Tally(inp, requested, rooms, s.V(), s.out, rs, stalls)
    {
      ghost var v, out := s.V(), s.out;
      var r := s.Read(rooms[i]);
      Settled(inp, s.V(), requested, s.frames, s.out);
      TallyStep(inp, requested, rooms, v, out, rs, stalls, s.V(), s.out, s.frames, r);
      if r == Data([]) && rooms[i] > 0 {
        stalls := stalls + {s.at.read};
      }
      rs := rs + [r];
    }
    Settled(inp, s.V(), requested, s.frames, s.out);
    AllLocated(inp, requested, s.frames, s.out);
    TallyGives(inp, requested, rooms, s.V(), s.out, rs, stalls);
    if End in rs {
      AllReturned(inp, s.V(), requested, s.frames, s.out);
    }
    ReadOut(inp, requested, rooms, s.V(), s.frames, s.out, stalls);
  }

  /** What a run of reads amounts to: the outcomes tell the bytes returned and
      where the stream stands, and each read of some room returned a byte or
      met a decoder that stalled, a new one each time. */
  ghost predicate Tally(inp: Input, requested: int, rooms: seq<nat>, s: State, out: seq<byte>, rs: seq<Outcome>, stalls: set<nat>)
  {
    && Returned(rs) == out && Sticky(rs) && (s.err.Some? ==> !s.finished && Flawed(inp, requested))
    && (forall k :: 0 <= k < |rs| ==> (rs[k].Failed? ==> s.err == Some(rs[k].error)) && (rs[k].End? ==> s.finished))
    && (s.finished ==> End in rs)
    && (forall q :: q in stalls ==> q <= s.at.read && Stalls(inp.pace(q)))
    && (Positive(rooms) && s.err.None? && !s.finished ==> |rs| <= |out| + |stalls|)
  }

  lemma TallyBegins(inp: Input, requested: int, rooms: seq<nat>, s: State, out: seq<byte>)
    requires out == [] && s.err.None? && !s.finished
    ensures Tally(inp, requested, rooms, s, out, [], {})
  {
  }

  lemma TallyStep(inp: Input, requested: int, rooms: seq<nat>, s: State, out: seq<byte>, rs: seq<Outcome>, stalls: set<nat>,
                  t: State, out': seq<byte>, frames: seq<Header>, r: Outcome)
    requires Tally(inp, requested, rooms, s, out, rs, stalls) && |rs| < |rooms|
    requires s.err.Some? ==> r == Failed([], s.err.value) && t == s && out' == out
    requires s.err.None? ==> Reported(inp, r, out, t, frames, out', rooms[|rs|])
    requires s.finished ==> r == End && t == s && out' == out
    requires if r.Failed? then t.err == Some(r.error) else t.err.None?
    requires Advances(inp, s, t, r, rooms[|rs|]) && (t.finished <==> r.End?) && (r.Failed? ==> Flawed(inp, requested))
    ensures Tally(inp, requested, rooms, t, out', rs + [r],
                  if r == Data([]) && rooms[|rs|] > 0 then stalls + {t.at.read} else stalls)
  {
    hide Flawed, AtEnd, Stalls, Unread;
    var after := rs + [r];
    assert after[..|rs|] == rs;
    assert Positive(rooms) ==> rooms[|rs|] > 0;
    if r == End {
      assert after[|rs|] == End;
    }
  }

  lemma TallyGives(inp: Input, requested: int, rooms: seq<nat>, s: State, out: seq<byte>, rs: seq<Outcome>, stalls: set<nat>)
    requires Tally(inp, requested, rooms, s, out, rs, stalls)
    ensures Returned(rs) == out && Sticky(rs) && (End in rs <==> s.finished)
    ensures (exists k :: 0 <= k < |rs| && rs[k].Failed?) ==> Flawed(inp, requested)
    ensures forall q :: q in stalls ==> Stalls(inp.pace(q))
    ensures Positive(rooms) && s.err.None? && !s.finished ==> |rs| <= |out| + |stalls|
  {
    hide Flawed, Stalls, Positive;
  }

  lemma AllLocated(inp: Input, requested: int, frames: seq<Header>, out: seq<byte>)
    requires Bounded(inp, requested, frames, out) && frames != []
    ensures forall j :: 0 <= j < |out| ==> Located(inp, frames, out, j)
  {
    hide Bounded;
    forall j | 0 <= j < |out| ensures Located(inp, frames, out, j) {
      var i := ByteAt(inp, requested, frames, out, j);
      assert Covers(inp, frames[i], i, frames[0].offset + j, out[j]);
    }
  }

  lemma Settled(inp: Input, s: State, requested: int, frames: seq<Header>, out: seq<byte>)
    requires Safe(inp, s, requested, frames, out)
    ensures Bounded(inp, requested, frames, out) && (s.err.Some? ==> !s.finished && Flawed(inp, requested))
  {
  }

  /** At the end every frame is closed and every payload was returned. */
  lemma AllReturned(inp: Input, s: State, requested: int, frames: seq<Header>, out: seq<byte>)
    requires Safe(inp, s, requested, frames, out) && s.finished
    ensures WellFormed(inp, requested, frames) && Ended(inp, s, |frames|) && out == Payloads(inp, |frames|)
    ensures Told(s.meta, frames, |frames|)
  {
    hide Contiguous, OpenedBy, ClosedBy, Continues, CleanEnd, Sound, Told;
  }

  lemma NeverEnough(inp: Input, requested: int, rooms: seq<nat>)
    requires Flawed(inp, requested)
    ensures forall hs, quiet :: !Enough(inp, requested, rooms, hs, quiet)
  {
    hide Enough, Flawed;
    forall hs, quiet ensures !Enough(inp, requested, rooms, hs, quiet) {
      EnoughIsClean(inp, requested, rooms, hs, quiet);
    }
  }

  lemma EnoughIsClean(inp: Input, requested: int, rooms: seq<nat>, hs: seq<Header>, quiet: set<nat>)
    ensures Enough(inp, requested, rooms, hs, quiet) ==> !Flawed(inp, requested)
  {
    hide WellFormed, Payloads;
  }

  lemma {:induction false} PayloadsGrow(inp: Input, n: nat, m: nat)
    requires n <= m
    ensures |Payloads(inp, n)| <= |Payloads(inp, m)|
  {
    if n < m {
      PayloadsGrow(inp, n, m - 1);
    }
  }

  /** Whoever has not failed has read everything out after enough reads. */
  lemma ReadOut(inp: Input, requested: int, rooms: seq<nat>, s: State, frames: seq<Header>, out: seq<byte>, stalls: set<nat>)
    requires Safe(inp, s, requested, frames, out) && (forall q :: q in stalls ==> Stalls(inp.pace(q)))
    requires Positive(rooms) && s.err.None? && !s.finished ==> |rooms| <= |out| + |stalls|
    ensures forall hs, quiet :: Enough(inp, requested, rooms, hs, quiet) ==>
              s.finished && frames == hs && out == Payloads(inp, |hs|)
  {
    hide Safe, Enough;
    forall hs, quiet | Enough(inp, requested, rooms, hs, quiet)
      ensures s.finished && frames == hs && out == Payloads(inp, |hs|)
    {
      ReadThis(inp, requested, rooms, s, frames, out, stalls, hs, quiet);
    }
  }

  lemma ReadThis(inp: Input, requested: int, rooms: seq<nat>, s: State, frames: seq<Header>, out: seq<byte>, stalls: set<nat>,
                 hs: seq<Header>, quiet: set<nat>)
    requires Safe(inp, s, requested, frames, out) && (forall q :: q in stalls ==> Stalls(inp.pace(q)))
    requires Positive(rooms) && s.err.None? && !s.finished ==> |rooms| <= |out| + |stalls|
    requires Enough(inp, requested, rooms, hs, quiet)
    ensures s.finished && frames == hs && out == Payloads(inp, |hs|)
  {
    hide Contiguous, FromLines, Payloads, Declared, Stalls, Inv, AtEnd, Flawed;
    EnoughIsClean(inp, requested, rooms, hs, quiet);
    Agrees(inp, requested, hs, frames, |frames| - 1);
    PayloadsGrow(inp, |frames|, |hs|);
    Fewer(stalls, quiet);
    assert s.finished;
    AllReturned(inp, s, requested, frames, out);
    Agrees(inp, requested, frames, hs, |hs|);
  }

  lemma Fewer(a: set<nat>, b: set<nat>)
    requires a <= b
    ensures |a| <= |b|
  {
    assert a + (b - a) == b;
  }
}
