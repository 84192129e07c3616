/** The recording buffers in memory and the wrappers that fill or empty them. */
module Recording {
  import opened Options
  import opened Wire
  import opened Tapes

  // ----- Buffer checks

  /** Some buffer holds more bytes than its threshold. */
  predicate Over(t: Streams) {
    4 * |t.ints| > 4000 || 4 * |t.errnos| > 4000 || 2 * |t.shorts| > 23000 || |t.data| > 100000 || |t.sched| > 40000
  }

  /** Fewer bytes than size - threshold - 4, in every buffer. */
  predicate Small(t: Streams) {
    4 * |t.ints| < 996 && 4 * |t.errnos| < 996 && 2 * |t.shorts| < 1996 && |t.data| < 99996 && |t.sched| < 9996
  }

  function AllWrites(os: seq<Obs>): Streams {
    if os == [] then NOTHING else Join(Writes(os[0]), AllWrites(os[1..]))
  }

  /** One turn of the scheduler loop: a buffer check, then what is recorded until the next one. */
  datatype Turn = Turn(flush: bool, os: seq<Obs>)

  function Dos(os: seq<Obs>): seq<Step> { seq(|os|, i requires 0 <= i < |os| => Do(os[i])) }

  /** The steps of a session that checks its buffers every turn and ends by dumping them. */
  function StepsOf(t: Streams, turns: seq<Turn>): seq<Step>
    decreases |turns|
  {
    if turns == [] then [Dump]
    else
      var u := turns[0];
      if u.flush || Over(t) then [Dump] + (Dos(u.os) + StepsOf(AllWrites(u.os), turns[1..]))
      else Dos(u.os) + StepsOf(Join(t, AllWrites(u.os)), turns[1..])
  }

  lemma SmallFits(t: Streams, x: Streams)
    requires !Over(t) && Small(x)
    ensures StreamsFit(Join(Join(t, x), MARKER))
  {}

  lemma {:induction false} WithinDos(t: Streams, os: seq<Obs>, s: seq<Step>)
    requires Within(Join(t, AllWrites(os)), s)
    ensures Within(t, Dos(os) + s)
    decreases |os|
  {
    if os == [] {
      JoinEmpty(t);
      assert Dos(os) + s == s;
    } else {
      JoinAssoc(t, Writes(os[0]), AllWrites(os[1..]));
      WithinDos(Join(t, Writes(os[0])), os[1..], s);
      assert Dos(os) + s == [Do(os[0])] + (Dos(os[1..]) + s);
    }
  }

  lemma WithinDump(t: Streams, more: seq<Step>)
    requires StreamsFit(Join(t, MARKER)) && Within(NOTHING, more)
    ensures Within(t, [Dump] + more)
  {
    assert ([Dump] + more)[1..] == more;
  }

  lemma NothingWithin()
    ensures Within(NOTHING, [])
  {}

  lemma {:induction false} StepsFinished(t: Streams, turns: seq<Turn>)
    ensures Finished(StepsOf(t, turns))
    decreases |turns|
  {
    hide Dos, Join, AllWrites, Over;
    if turns != [] {
      StepsFinished(AllWrites(turns[0].os), turns[1..]);
      StepsFinished(Join(t, AllWrites(turns[0].os)), turns[1..]);
    }
  }

  /** If little is recorded between checks, no chunk breaks the length limit. */
  lemma {:induction false} ChecksKeepWithin(t: Streams, turns: seq<Turn>)
    requires StreamsFit(Join(t, MARKER)) && forall u :: u in turns ==> Small(AllWrites(u.os))
    ensures Within(t, StepsOf(t, turns)) && Finished(StepsOf(t, turns))
    decreases |turns|
  {
    hide StreamsFit, Small, Over, Within, AllWrites, Dos, Join, Finished;
    StepsFinished(t, turns);
    if turns == [] {
      NothingWithin();
      WithinDump(t, []);
      assert [Dump] + [] == [Dump];
    } else {
      var u := turns[0];
      var x := AllWrites(u.os);
      assert u in turns;
      if u.flush || Over(t) {
        EmptyBelow(x);
        ChecksKeepWithin(x, turns[1..]);
        JoinEmpty(x);
        WithinDos(NOTHING, u.os, StepsOf(x, turns[1..]));
        WithinDump(t, Dos(u.os) + StepsOf(x, turns[1..]));
      } else {
        SmallFits(t, x);
        ChecksKeepWithin(Join(t, x), turns[1..]);
        WithinDos(t, u.os, StepsOf(Join(t, x), turns[1..]));
      }
    }
  }

  predicate GoodTurns(turns: seq<Turn>) { forall u, o :: u in turns && o in u.os ==> GoodObs(o) }

  lemma {:induction false} GoodSession(t: Streams, turns: seq<Turn>)
    requires GoodTurns(turns)
    ensures GoodSteps(StepsOf(t, turns))
    decreases |turns|
  {
    if turns != [] {
      var u := turns[0];
      assert u in turns;
      assert forall i :: 0 <= i < |u.os| ==> u.os[i] in u.os;
      GoodSession(AllWrites(u.os), turns[1..]);
      GoodSession(Join(t, AllWrites(u.os)), turns[1..]);
    }
  }

  /** A whole session with sparse input, recorded with the buffer checks of the scheduler, plays back
      exactly when every count fits a short and no call failed or asked for an error number. */
  lemma SessionPlayback(server: Server, turns: seq<Turn>)
    requires GoodTurns(turns) && (forall u :: u in turns ==> Small(AllWrites(u.os)))
    requires RunOf(server, [], StepsOf(NOTHING, turns))
    ensures var s := StepsOf(NOTHING, turns);
            Sane(FallThrough()) && GoodSteps(s) && GoodStreams(NOTHING) && Within(NOTHING, s) &&
            (PlaybackReproduces(FallThrough(), server, s, Recorded(FallThrough(), NOTHING, [], s).1) <==>
             CountsFit(s) && ErrnoFree(s))
  {
    JoinEmpty(MARKER);
    ChecksKeepWithin(NOTHING, turns);
    GoodSession(NOTHING, turns);
    PlaybackAsWritten(server, StepsOf(NOTHING, turns));
  }

  lemma EmptyBelow(x: Streams)
    requires Small(x)
    ensures StreamsFit(Join(x, MARKER))
  {
    JoinEmpty(x);
    SmallFits(NOTHING, x);
  }

  // ----- The buffers

  /** What the operating system answers to a read. */
  datatype Outcome = Outcome(i: int, bytes: seq<int>, errno: int)

  class Recorder {
    const codec: Codec
    var playback: bool
    var record: bool
    /** Buffer contents: what has been recorded since the last dump, or the chunk loaded last. */
    var streams: Streams
    /** Positions of the five read pointers. */
    var ints: nat
    var errnos: nat
    var shorts: nat
    var data: nat
    var schedule: nat
    /** The file written so far, or the part not read yet. */
    var file: seq<Byte>

    function AsTape(): Tape
      reads this
    {
      Tape(streams, ints, errnos, shorts, data, schedule, file)
    }

    ghost predicate Valid()
      reads this
    {
      Sane(codec) && TapeValid(AsTape()) && (!playback ==> GoodStreams(streams))
    }

    constructor ForRecording(codec: Codec)
      requires Sane(codec)
      ensures Valid() && record && !playback && streams == NOTHING && file == [] && this.codec == codec
    {
      this.codec := codec;
      playback, record := false, true;
      streams, file := NOTHING, [];
      ints, errnos, shorts, data, schedule := 0, 0, 0, 0, 0;
    }

    /** Playback starts with the first chunk; if it cannot be loaded the file stays unread. */
    constructor ForPlayback(codec: Codec, file: seq<Byte>)
      requires Sane(codec)
      ensures Valid() && playback && !record && this.codec == codec
      ensures var t := Fresh(NOTHING, file); AsTape() == if Load(codec, t).Some? then Load(codec, t).value else t
    {
      this.codec := codec;
      playback, record := true, false;
      streams, this.file := NOTHING, file;
      ints, errnos, shorts, data, schedule := 0, 0, 0, 0, 0;
      new;
      var _ := GetRecordingData();
    }

    /** sock_readRec and sock_receive_anyRec: answers and stores the outcome, or takes it from the streams. */
    method ReadRec(op: Op, answer: Outcome) returns (i: int, rbuf: seq<int>, errno: int)
      requires Valid() && op in {Read, Receive}
      requires playback ==> Played(codec, op, AsTape()).Some?
      requires !playback ==> GoodObs(Got(op, answer.i, answer.bytes, if answer.i > 0 then 0 else answer.errno))
      modifies this
      ensures Valid() && playback == old(playback) && record == old(record)
      ensures old(playback) ==> Played(codec, op, old(AsTape())) == Some((Got(op, i, rbuf, errno), AsTape()))
      ensures !old(playback) ==> i == answer.i && rbuf == answer.bytes && errno == if i > 0 then 0 else answer.errno
      ensures !old(playback) ==> file == old(file)
      ensures !old(playback) ==>
                streams == if record then Join(old(streams), Writes(Got(op, i, rbuf, errno))) else old(streams)
    {
      if playback {
        i := streams.shorts[shorts];
        shorts := shorts + 1;
        if i > 0 {
          rbuf := streams.data[data..data + i];
          data := data + i;
          errno := 0;
        } else {
          rbuf, errno := [], streams.errnos[errnos];
          errnos := errnos + 1;
        }
        return;
      }
      i, rbuf := answer.i, answer.bytes;
      errno := if i > 0 then 0 else answer.errno;
      if record {
        WritesGood(Got(op, i, rbuf, errno));
        JoinGood(streams, Writes(Got(op, i, rbuf, errno)));
        ghost var goal := Join(streams, Writes(Got(op, i, rbuf, errno)));
        streams := streams.(shorts := streams.shorts + [Short(i)]);
        if i > 0 {
          streams := streams.(data := streams.data + rbuf);
        } else {
          streams := streams.(errnos := streams.errnos + [errno]);
        }
        assert streams == goal;
      }
    }

    method GetLastPortRec(answer: int) returns (i: int)
      requires Valid() && (if playback then Played(codec, LastPort, AsTape()).Some? else InKind(Ints, answer))
      modifies this
      ensures Valid() && playback == old(playback) && record == old(record)
      ensures old(playback) ==> Played(codec, LastPort, old(AsTape())) == Some((Got(LastPort, i, [], 0), AsTape()))
      ensures !old(playback) ==> i == answer && file == old(file)
      ensures !old(playback) ==>
              streams == if record then Join(old(streams), Writes(Got(LastPort, i, [], 0))) else old(streams)
    {
      if playback {
        i := streams.ints[ints];
        ints := ints + 1;
        return;
      }
      i := answer;
      if record {
        JoinGood(streams, Writes(Got(LastPort, i, [], 0)));
        ghost var goal := Join(streams, Writes(Got(LastPort, i, [], 0)));
        streams := streams.(ints := streams.ints + [i]);
        assert streams == goal;
      }
    }

    method GetErrorRec(answer: int, error: int) returns (i: int, errno: int)
      requires Valid()
      requires if playback then Played(codec, GetError, AsTape()).Some? else InKind(Ints, answer) && InKind(Ints, error)
      modifies this
      ensures Valid() && playback == old(playback) && record == old(record)
      ensures old(playback) ==> Played(codec, GetError, old(AsTape())) == Some((Got(GetError, i, [], errno), AsTape()))
      ensures !old(playback) ==> i == answer && errno == error && file == old(file)
      ensures !old(playback) ==>
              streams == if record then Join(old(streams), Writes(Got(GetError, i, [], errno))) else old(streams)
    {
      if playback {
        errno := streams.errnos[errnos];
        errnos := errnos + 1;
        i := streams.ints[ints];
        ints := ints + 1;
        return;
      }
      i, errno := answer, error;
      if record {
        JoinGood(streams, Writes(Got(GetError, i, [], errno)));
        ghost var goal := Join(streams, Writes(Got(GetError, i, [], errno)));
        streams := streams.(errnos := streams.errnos + [errno]);
        streams := streams.(ints := streams.ints + [i]);
        assert streams == goal;
      }
    }

    /** Marks the end of the chunk and writes all sections. */
    method DumpData()
      requires Valid() && !playback && StreamsFit(Join(streams, MARKER))
      modifies this
      ensures Valid() && streams == NOTHING && playback == old(playback) && record == old(record)
      ensures GoodStreams(Join(old(streams), MARKER)) && file == old(file) + Chunk(codec, Join(old(streams), MARKER))
    {
      ghost var marked := Join(streams, MARKER);
      ChunkSections(codec, streams);
      streams := streams.(sched := streams.sched + [127]);
      assert streams == marked;
      hide GoodStreams, StreamsFit, GoodBufs, BufsFit, ChunkFrom, Chunk, Join, AsBufs;
      WriteSections(AsBufs(streams));
      streams := NOTHING;
      ints, errnos, shorts, data, schedule := 0, 0, 0, 0, 0;
      MarkerGood();
    }

    method WriteSections(b: Bufs)
      requires GoodBufs(codec, b) && BufsFit(b)
      modifies this`file
      ensures file == old(file) + ChunkFrom(codec, b, 0)
    {
      hide GoodBufs, BufsFit, Section, ChunkFrom;
      ghost var goal := file + ChunkFrom(codec, b, 0);
      for i := 0 to TYPES
        invariant file + ChunkFrom(codec, b, i) == goal
      {
        ChunkNext(codec, b, i);
        Associates(file, Section(codec, KINDS[i], b[i]), ChunkFrom(codec, b, i + 1));
        file := file + Section(codec, KINDS[i], b[i]);
      }
      ChunkEnd(codec, b);
    }

    /** Dumps when asked to flush or when a buffer is over its threshold; afterwards none is. */
    method HandleRecordingBuffers(flush: bool)
      requires Valid() && !playback && StreamsFit(Join(streams, MARKER))
      modifies this
      ensures Valid() && !Over(streams) && playback == old(playback) && record == old(record)
      ensures if flush || Over(old(streams))
              then streams == NOTHING && GoodStreams(Join(old(streams), MARKER)) &&
                   file == old(file) + Chunk(codec, Join(old(streams), MARKER))
              else streams == old(streams) && file == old(file)
    {
      hide Chunk, GoodStreams;
      if flush {
        DumpData();
        return;
      }
      var b, over := AsBufs(streams), false;
      for i := 0 to TYPES
        modifies {}
        invariant !over && forall j :: 0 <= j < i ==> Unit(KINDS[j]) * |b[j]| <= THRESHOLDS[j]
      {
        if Unit(KINDS[i]) * |b[i]| > THRESHOLDS[i] {
          OverAt(streams, i);
          over := true;
          break;
        }
      }
      if over { DumpData(); } else { NotOver(streams); }
    }

    /** Reads the next chunk; not ok where the source gives up. */
    method GetRecordingData() returns (ok: bool)
      requires Valid() && playback
      modifies this
      ensures Valid() && playback && record == old(record)
      ensures var t := Load(codec, old(AsTape()));
              if t.Some? then ok && AsTape() == t.value else !ok && AsTape() == old(AsTape())
    {
      hide UnSection, UnChunkFrom, Unread, Left, After;
      var t := AsTape();
      var rest, b: seq<seq<int>> := file, [];
      AfterNone(UnChunkFrom(codec, file, 0));
      for i := 0 to TYPES
        modifies {}
        invariant |b| == i && UnChunkFrom(codec, file, 0) == After(b, UnChunkFrom(codec, rest, i))
        invariant forall j :: 0 <= j < i ==> Left(t, j) == 0
      {
        AfterNext(codec, b, rest, i);
        var r := UnSection(codec, KINDS[i], SIZES[i], rest);
        if r.None? { return false; }
        if Left(t, i) != 0 {
          AllRead(t);
          return false;
        }
        b, rest := b + [r.value.0], r.value.1;
      }
      AllRead(t);
      AfterAll(codec, b, rest);
      streams := Streams(b[INTS], b[ERRNOS], b[SHORTS], b[DATA], b[SCHED]);
      ints, errnos, shorts, data, schedule := 0, 0, 0, 0, 0;
      file := rest;
      ok := true;
    }

    /** The scheduler's playback: the next handler, or the frame; not ok where a load fails or the stream ends. */
    method NextEvent() returns (ok: bool, o: Obs)
      requires Valid() && playback
      modifies this
      ensures Valid() && playback && record == old(record)
      ensures if ok then Played(codec, Return, old(AsTape())) == Some((o, AsTape()))
              else Played(codec, Return, old(AsTape())).None?
    {
      hide Load;
      o := Frame;
      ghost var goal := Played(codec, Return, AsTape());
      while true
        invariant Valid() && playback && record == old(record) && Played(codec, Return, AsTape()) == goal
        decreases |file|
      {
        if schedule == |streams.sched| { return false, Frame; }
        var code := streams.sched[schedule];
        schedule := schedule + 1;
        if code != MARK {
          ok, o := true, if code == 0 then Frame else Handler(code);
          return;
        }
        var loaded := GetRecordingData();
        if !loaded { return false, Frame; }
      }
    }

    /** A server during playback, for its next n observations; not ok where a stream runs out or a load fails. */
    method Run(server: Server, n: nat) returns (ok: bool, seen: seq<Obs>)
      requires Valid() && playback
      modifies this
      ensures Valid()
      ensures if ok then Replay(codec, server, [], old(AsTape()), n) == Some((seen, AsTape()))
              else Replay(codec, server, [], old(AsTape()), n).None?
    {
      hide Played;
      ghost var goal := Replay(codec, server, [], AsTape(), n);
      seen := [];
      for i := 0 to n
        invariant Valid() && playback && |seen| == i && goal == Replay(codec, server, seen, AsTape(), n - i)
      {
        var op := server(seen);
        var o: Obs;
        if op == Return {
          ok, o := NextEvent();
          if !ok { return; }
        } else if Played(codec, op, AsTape()).None? {
          return false, seen;
        } else if op == LastPort {
          var port := GetLastPortRec(0);
          o := Got(op, port, [], 0);
        } else if op == GetError {
          var ret, errno := GetErrorRec(0, 0);
          o := Got(op, ret, [], errno);
        } else {
          var ret, bytes, errno := ReadRec(op, Outcome(0, [], 0));
          o := Got(op, ret, bytes, errno);
        }
        seen := seen + [o];
      }
      ok := true;
    }
  }

  /** Plays back a file from its first chunk on; ok when the run went through and read all that was recorded. */
  method PlayBack(codec: Codec, server: Server, n: nat, file: seq<Byte>) returns (ok: bool, seen: seq<Obs>)
    requires Sane(codec)
    ensures forall s :: |Observations(s)| == n ==>
            (PlaybackReproduces(codec, server, s, file) <==> ok && seen == Observations(s))
  {
    hide Load, Replay;
    if Load(codec, Fresh(NOTHING, file)).None? { return false, []; }
    var r := new Recorder.ForPlayback(codec, file);
    ok, seen := r.Run(server, n);
    ok := ok && ReadOut(r.AsTape());
    assert forall s :: [] + Observations(s) == Observations(s);
  }

  /** The marked streams make up a chunk, written section by section. */
  lemma ChunkSections(c: Codec, t: Streams)
    requires Sane(c) && GoodStreams(t) && StreamsFit(Join(t, MARKER))
    ensures var marked := Join(t, MARKER); var b := AsBufs(marked);
            GoodStreams(marked) && GoodBufs(c, b) && BufsFit(b) && Chunk(c, marked) == ChunkFrom(c, b, 0)
  {
    hide GoodStreams, StreamsFit, ChunkFrom, GoodBufs, BufsFit;
    MarkerGood();
    JoinGood(t, MARKER);
    AsBufsGood(c, Join(t, MARKER));
  }

  /** Sections read already, before those still to be read. */
  function After(b: seq<seq<int>>, r: Option<(seq<seq<int>>, seq<Byte>)>): Option<(seq<seq<int>>, seq<Byte>)> {
    match r
    case None => None
    case Some(v) => Some((b + v.0, v.1))
  }

  lemma AfterNone(r: Option<(seq<seq<int>>, seq<Byte>)>)
    ensures After([], r) == r
  {
    if r.Some? { assert [] + r.value.0 == r.value.0; }
  }

  lemma AfterNext(c: Codec, b: seq<seq<int>>, rest: seq<Byte>, i: nat)
    requires i < TYPES
    ensures var r := UnSection(c, KINDS[i], SIZES[i], rest);
            After(b, UnChunkFrom(c, rest, i)) ==
            if r.None? then None else After(b + [r.value.0], UnChunkFrom(c, r.value.1, i + 1))
  {
    hide UnSection;
    var r := UnSection(c, KINDS[i], SIZES[i], rest);
    if r.Some? {
      var m := UnChunkFrom(c, r.value.1, i + 1);
      if m.Some? { assert b + ([r.value.0] + m.value.0) == b + [r.value.0] + m.value.0; }
    }
  }

  lemma AfterAll(c: Codec, b: seq<seq<int>>, rest: seq<Byte>)
    ensures After(b, UnChunkFrom(c, rest, TYPES)) == Some((b, rest))
  {
    assert b + [] == b;
  }

  lemma OverAt(t: Streams, i: nat)
    requires i < TYPES && Unit(KINDS[i]) * |AsBufs(t)[i]| > THRESHOLDS[i]
    ensures Over(t)
  {}

  lemma NotOver(t: Streams)
    requires forall j :: 0 <= j < TYPES ==> Unit(KINDS[j]) * |AsBufs(t)[j]| <= THRESHOLDS[j]
    ensures !Over(t)
  {
    var b := AsBufs(t);
    assert Unit(KINDS[0]) * |b[0]| <= THRESHOLDS[0] && Unit(KINDS[1]) * |b[1]| <= THRESHOLDS[1] &&
           Unit(KINDS[2]) * |b[2]| <= THRESHOLDS[2] &&
           Unit(KINDS[3]) * |b[3]| <= THRESHOLDS[3] && Unit(KINDS[4]) * |b[4]| <= THRESHOLDS[4];
  }

  /** Elements of stream i not read yet. */
  function Left(t: Tape, i: nat): int {
    match i
    case 0 => |t.chunk.ints| - t.ints
    case 1 => |t.chunk.errnos| - t.errnos
    case 2 => |t.chunk.shorts| - t.shorts
    case 3 => |t.chunk.data| - t.data
    case 4 => |t.chunk.sched| - t.sched
    case _ => 0
  }

  lemma AllRead(t: Tape)
    requires TapeValid(t)
    ensures Unread(t) == NOTHING <==> forall i: nat :: i < TYPES ==> Left(t, i) == 0
  {
    var u := Unread(t);
    assert |u.ints| == Left(t, 0) && |u.errnos| == Left(t, 1) && |u.shorts| == Left(t, 2) && |u.data| == Left(t, 3) &&
           |u.sched| == Left(t, 4);
  }
}
