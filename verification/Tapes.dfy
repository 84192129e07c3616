/** Recording a server's input and playing it back. */
module Tapes {
  import opened Options
  import opened Wire

  /** What a server does next: call one of the socket wrappers, or return to the scheduler. */
  datatype Op = Read | Receive | LastPort | GetError | Return

  /** What a server sees: a frame, an input handler being run, or the outcome of a call. Only failures
      have an err. */
  datatype Obs = Frame | Handler(id: int) | Got(op: Op, ret: int, bytes: seq<int>, err: int)

  /** A server is determined by what it has seen. */
  type Server = seq<Obs> -> Op

  predicate GoodObs(o: Obs) {
    match o
    case Frame => true
    case Handler(id) => 1 <= id <= 126
    case Got(op, ret, bytes, err) =>
      InKind(Ints, ret) && InKind(Ints, err) && GoodElements(Chars, bytes) &&
      match op
      case Read => if ret > 0 then |bytes| == ret && err == 0 else bytes == []
      case Receive => if ret > 0 then |bytes| == ret && err == 0 else bytes == []
      case LastPort => bytes == [] && err == 0
      case GetError => bytes == []
      case Return => false
  }

  /** Storing an int in a short keeps its low 16 bits. */
  function Short(v: int): int { Signed(v % 0x1_0000, 2) }

  /** The count of a read survives being stored in a short. */
  predicate CountFits(o: Obs) { o.Got? && o.op in {Read, Receive} ==> InKind(Shorts, o.ret) }

  lemma ShortKeeps(v: int)
    ensures InKind(Shorts, Short(v))
    ensures Short(v) == v <==> InKind(Shorts, v)
  {}

  // ----- Streams

  /** The five streams the wrappers and the scheduler use; the other three sections stay empty. */
  datatype Streams = Streams(ints: seq<int>, errnos: seq<int>, shorts: seq<int>, data: seq<int>, sched: seq<int>)

  const NOTHING := Streams([], [], [], [], [])

  function Join(a: Streams, b: Streams): Streams {
    Streams(a.ints + b.ints, a.errnos + b.errnos, a.shorts + b.shorts, a.data + b.data, a.sched + b.sched)
  }

  lemma JoinAssoc(a: Streams, b: Streams, d: Streams)
    ensures Join(Join(a, b), d) == Join(a, Join(b, d))
  {}

  lemma JoinEmpty(a: Streams)
    ensures Join(NOTHING, a) == a == Join(a, NOTHING)
  {}

  predicate GoodStreams(t: Streams) {
    GoodElements(Ints, t.ints) && GoodElements(Errnos, t.errnos) && GoodElements(Shorts, t.shorts) &&
    GoodElements(Chars, t.data) && GoodElements(Chars, t.sched)
  }

  lemma JoinGood(a: Streams, b: Streams)
    ensures GoodStreams(Join(a, b)) <==> GoodStreams(a) && GoodStreams(b)
  {
    ElementsJoin(Ints, a.ints, b.ints);
    ElementsJoin(Errnos, a.errnos, b.errnos);
    ElementsJoin(Shorts, a.shorts, b.shorts);
    ElementsJoin(Chars, a.data, b.data);
    ElementsJoin(Chars, a.sched, b.sched);
  }

  lemma ElementsJoin(k: Kind, a: seq<int>, b: seq<int>)
    ensures GoodElements(k, a + b) <==> GoodElements(k, a) && GoodElements(k, b)
  {
    assert forall v :: v in a + b <==> v in a || v in b;
  }

  /** Every section stays within the size of its buffer. */
  predicate StreamsFit(t: Streams) {
    4 * |t.ints| <= 4996 && 4 * |t.errnos| <= 4996 && 2 * |t.shorts| <= 24996 && |t.data| <= 199996 &&
    |t.sched| <= 49996
  }

  function AsBufs(t: Streams): Bufs { [t.ints, t.errnos, t.shorts, t.data, t.sched, [], [], []] }

  lemma AsBufsGood(c: Codec, t: Streams)
    requires GoodStreams(t) && Sane(c)
    ensures GoodBufs(c, AsBufs(t))
    ensures BufsFit(AsBufs(t)) <==> StreamsFit(t)
  {
    var b := AsBufs(t);
    assert BufsFit(b) ==>
           Fits(KINDS[0], SIZES[0], b[0]) && Fits(KINDS[1], SIZES[1], b[1]) && Fits(KINDS[2], SIZES[2], b[2]) &&
                          Fits(KINDS[3], SIZES[3], b[3]) && Fits(KINDS[4], SIZES[4], b[4]);
  }

  ghost function Chunk(c: Codec, t: Streams): seq<Byte>
    requires Sane(c) && GoodStreams(t) && StreamsFit(t)
  {
    AsBufsGood(c, t);
    ChunkFrom(c, AsBufs(t), 0)
  }

  function UnChunk(c: Codec, file: seq<Byte>): (r: Option<(Streams, seq<Byte>)>)
    ensures r.Some? ==> |r.value.1| < |file|
  {
    var r := UnChunkFrom(c, file, 0);
    if r.None? then None
    else
      var b := r.value.0;
      Some((Streams(b[INTS], b[ERRNOS], b[SHORTS], b[DATA], b[SCHED]), r.value.1))
  }

  predicate KeepsAll(c: Codec, es: seq<int>) { forall e :: e in es ==> Kept(c, Errnos, e) }

  /** u is t but for the values of error numbers. */
  predicate SameBut(u: Streams, t: Streams) { u == t.(errnos := u.errnos) && |u.errnos| == |t.errnos| }

  /** A chunk is read back, with its error numbers as the codec gives them back, or reading stops. */
  lemma UnChunkBack(c: Codec, t: Streams, rest: seq<Byte>)
    requires Sane(c) && GoodStreams(t) && StreamsFit(t)
    ensures var r := UnChunk(c, Chunk(c, t) + rest);
            && (r == Some((t, rest)) <==> KeepsAll(c, t.errnos))
            && (r.Some? ==> r.value.1 == rest && SameBut(r.value.0, t))
  {
    hide UnChunkFrom, ChunkFrom;
    AsBufsGood(c, t);
    ChunkBack(c, AsBufs(t), rest);
    var r := UnChunkFrom(c, Chunk(c, t) + rest, 0);
    if r.Some? { BufsAre(r.value.0, t); }
  }

  lemma BufsAre(b: seq<seq<int>>, t: Streams)
    requires AllButErrnos(b, AsBufs(t), 0)
    ensures |b| == TYPES && |b[ERRNOS]| == |t.errnos|
    ensures b[INTS] == t.ints && b[SHORTS] == t.shorts && b[DATA] == t.data && b[SCHED] == t.sched
    ensures b == AsBufs(t) <==> b[ERRNOS] == t.errnos
  {
    var a := AsBufs(t);
    forall j: nat | j < TYPES ensures |b[j]| == |a[j]| && (j != ERRNOS ==> b[j] == a[j]) { assert b[j] == b[j - 0]; }
  }

  // ----- Recording

  /** What the recording of one observation adds to the streams. */
  function Writes(o: Obs): Streams {
    match o
    case Frame => NOTHING.(sched := [0])
    case Handler(id) => NOTHING.(sched := [id])
    case Got(op, ret, bytes, err) => (
      match op
      case LastPort => NOTHING.(ints := [ret])
      case GetError => NOTHING.(errnos := [err], ints := [ret])
      case _ => if ret > 0 then NOTHING.(shorts := [Short(ret)], data := bytes)
        else NOTHING.(shorts := [Short(ret)], errnos := [err])
    )
  }

  lemma WritesGood(o: Obs)
    requires GoodObs(o)
    ensures GoodStreams(Writes(o))
  {
    if o.Got? { ShortKeeps(o.ret); }
  }

  const MARK := 127
  const MARKER := Streams([], [], [], [], [MARK])

  datatype Step = Do(o: Obs) | Dump

  predicate GoodSteps(s: seq<Step>) { forall i :: 0 <= i < |s| && s[i].Do? ==> GoodObs(s[i].o) }

  /** No chunk outgrows its section limits, when the current one holds t already. */
  ghost predicate Within(t: Streams, s: seq<Step>)
    decreases |s|
  {
    s != [] ==>
      match s[0]
      case Do(o) => Within(Join(t, Writes(o)), s[1..])
      case Dump => StreamsFit(Join(t, MARKER)) && Within(NOTHING, s[1..])
  }

  /** The streams and the file after the steps; Dump_data marks the end of the chunk and writes it. */
  ghost function Recorded(c: Codec, t: Streams, file: seq<Byte>, s: seq<Step>): (Streams, seq<Byte>)
    requires Sane(c) && GoodSteps(s) && GoodStreams(t) && Within(t, s)
    decreases |s|
  {
    if s == [] then (t, file)
    else match s[0]
      case Do(o) => WritesGood(o); JoinGood(t, Writes(o)); Recorded(c, Join(t, Writes(o)), file, s[1..])
      case Dump => JoinGood(t, MARKER); Recorded(c, NOTHING, file + Chunk(c, Join(t, MARKER)), s[1..])
  }

  // ----- The recording seen from the front

  /** What the current chunk will still receive. */
  function Ahead(s: seq<Step>): Streams
    decreases |s|
  {
    if s == [] then NOTHING
    else match s[0]
      case Do(o) => Join(Writes(o), Ahead(s[1..]))
      case Dump => MARKER
  }

  lemma {:induction false} AheadGood(s: seq<Step>)
    requires GoodSteps(s)
    ensures GoodStreams(Ahead(s))
    decreases |s|
  {
    if s != [] && s[0].Do? {
      AheadGood(s[1..]);
      WritesGood(s[0].o);
      JoinGood(Writes(s[0].o), Ahead(s[1..]));
    }
  }

  /** All later chunks stay within their limits. */
  ghost predicate Chunked(s: seq<Step>)
    decreases |s|
  {
    s != [] ==> Chunked(s[1..]) && (s[0].Dump? ==> StreamsFit(Ahead(s[1..])))
  }

  /** The file after the current chunk. */
  ghost function Later(c: Codec, s: seq<Step>): seq<Byte>
    requires Sane(c) && GoodSteps(s) && Chunked(s)
    decreases |s|
  {
    if s == [] then []
    else match s[0]
      case Do(o) => Later(c, s[1..])
      case Dump => if s[1..] == [] then [] else AheadGood(s[1..]); Chunk(c, Ahead(s[1..])) + Later(c, s[1..])
  }

  /** The recording ends with a dump, as when it is switched off. */
  predicate Finished(s: seq<Step>) { s != [] && s[|s| - 1].Dump? }

  /** Recording step by step writes the chunks seen from the front. */
  lemma {:induction false} RecordedIsLater(c: Codec, t: Streams, file: seq<Byte>, s: seq<Step>)
    requires Sane(c) && GoodSteps(s) && GoodStreams(t) && Within(t, s) && Finished(s)
    ensures Chunked(s) && StreamsFit(Join(t, Ahead(s))) && GoodStreams(Join(t, Ahead(s)))
    ensures Recorded(c, t, file, s) == (NOTHING, file + (Chunk(c, Join(t, Ahead(s))) + Later(c, s)))
    decreases |s|
  {
    hide StreamsFit, GoodStreams, Chunk;
    match s[0] {
      case Do(o) =>
        WritesGood(o);
        JoinGood(t, Writes(o));
        RecordedIsLater(c, Join(t, Writes(o)), file, s[1..]);
        JoinAssoc(t, Writes(o), Ahead(s[1..]));
      case Dump =>
        JoinGood(t, MARKER);
        MarkerGood();
        if s[1..] != [] {
          RecordedIsLater(c, NOTHING, file + Chunk(c, Join(t, MARKER)), s[1..]);
          JoinEmpty(Ahead(s[1..]));
          JoinEmpty(MARKER);
          Associates(file, Chunk(c, Join(t, MARKER)), Chunk(c, Ahead(s[1..])) + Later(c, s[1..]));
        } else {
          Associates(file, Chunk(c, Join(t, MARKER)), []);
          assert file + Chunk(c, Join(t, MARKER)) + [] == file + Chunk(c, Join(t, MARKER));
        }
    }
  }

  lemma Associates(a: seq<Byte>, b: seq<Byte>, d: seq<Byte>)
    ensures (a + b) + d == a + (b + d)
  {}

  lemma MarkerGood()
    ensures GoodStreams(MARKER) && GoodStreams(NOTHING) && StreamsFit(NOTHING)
  {}

  // ----- Playback

  /** The loaded chunk, how far each stream has been read, and the rest of the file. */
  datatype Tape = Tape(chunk: Streams, ints: nat, errnos: nat, shorts: nat, data: nat, sched: nat, file: seq<Byte>)

  predicate TapeValid(t: Tape) {
    t.ints <= |t.chunk.ints| && t.errnos <= |t.chunk.errnos| && t.shorts <= |t.chunk.shorts| &&
    t.data <= |t.chunk.data| && t.sched <= |t.chunk.sched|
  }

  function Unread(t: Tape): Streams
    requires TapeValid(t)
  {
    Streams(t.chunk.ints[t.ints..], t.chunk.errnos[t.errnos..], t.chunk.shorts[t.shorts..], t.chunk.data[t.data..],
      t.chunk.sched[t.sched..])
  }

  /** Get_recording_data: None stands for its error exits, among them a chunk not read to its end. */
  function Load(c: Codec, t: Tape): (r: Option<Tape>)
    requires TapeValid(t)
    ensures r.Some? ==> TapeValid(r.value) && |r.value.file| < |t.file|
  {
    if Unread(t) != NOTHING then None
    else
      var r := UnChunk(c, t.file);
      if r.None? then None else Some(Tape(r.value.0, 0, 0, 0, 0, 0, r.value.1))
  }

  /** What the next observation is, and the tape after it; None when a stream runs out or a load fails. */
  function Played(c: Codec, op: Op, t: Tape): (r: Option<(Obs, Tape)>)
    requires TapeValid(t)
    ensures r.Some? ==> TapeValid(r.value.1)
    decreases |t.file|
  {
    match op
    case Return =>
      if t.sched == |t.chunk.sched| then None
      else
        var code := t.chunk.sched[t.sched];
        if code == MARK then
          var loaded := Load(c, t.(sched := t.sched + 1));
          if loaded.None? then None else Played(c, Return, loaded.value)
        else Some((if code == 0 then Frame else Handler(code), t.(sched := t.sched + 1)))
    case LastPort =>
      if t.ints == |t.chunk.ints| then None
      else Some((Got(op, t.chunk.ints[t.ints], [], 0), t.(ints := t.ints + 1)))
    case GetError =>
      if t.errnos == |t.chunk.errnos| || t.ints == |t.chunk.ints| then None
      else Some((Got(op, t.chunk.ints[t.ints], [], t.chunk.errnos[t.errnos]),
                 t.(errnos := t.errnos + 1, ints := t.ints + 1)))
    case _ =>
      if t.shorts == |t.chunk.shorts| then None
      else
        var i := t.chunk.shorts[t.shorts];
        if i > 0 then
          if t.data + i > |t.chunk.data| then None
          else Some((Got(op, i, t.chunk.data[t.data..t.data + i], 0), t.(shorts := t.shorts + 1, data := t.data + i)))
        else
          if t.errnos == |t.chunk.errnos| then None
          else Some((Got(op, i, [], t.chunk.errnos[t.errnos]), t.(shorts := t.shorts + 1, errnos := t.errnos + 1)))
  }

  /** n observations of a playback run that has seen h, and the tape then. */
  function Replay(c: Codec, server: Server, h: seq<Obs>, t: Tape, n: nat): (r: Option<(seq<Obs>, Tape)>)
    requires TapeValid(t)
    ensures r.Some? ==> |r.value.0| == |h| + n && r.value.0[..|h|] == h && TapeValid(r.value.1)
    decreases n
  {
    if n == 0 then Some((h, t))
    else
      var r := Played(c, server(h), t);
      if r.None? then None else Replay(c, server, h + [r.value.0], r.value.1, n - 1)
  }

  function Observations(s: seq<Step>): seq<Obs>
    decreases |s|
  {
    if s == [] then []
    else match s[0]
      case Do(o) => [o] + Observations(s[1..])
      case Dump => Observations(s[1..])
  }

  /** What the server asks for when it makes observation o. */
  function AskedFor(o: Obs): Op { if o.Got? then o.op else Return }

  /** The steps are a run of this server that has seen h; dumps happen in the scheduler. */
  predicate RunOf(server: Server, h: seq<Obs>, s: seq<Step>)
    decreases |s|
  {
    s != [] ==>
      match s[0]
      case Do(o) => server(h) == AskedFor(o) && RunOf(server, h + [o], s[1..])
      case Dump => server(h) == Return && RunOf(server, h, s[1..])
  }

  predicate CountsFit(s: seq<Step>) { forall i :: 0 <= i < |s| && s[i].Do? ==> CountFits(s[i].o) }

  /** The codec keeps the error numbers of all chunks after the current one. */
  predicate LaterKept(c: Codec, s: seq<Step>)
    decreases |s|
  {
    s != [] ==> LaterKept(c, s[1..]) && (s[0].Dump? ==> KeepsAll(c, Ahead(s[1..]).errnos))
  }

  /** A stream whose unread part starts with w. */
  lemma Leads(full: seq<int>, at: nat, w: seq<int>, next: seq<int>)
    requires at <= |full| && full[at..] == w + next
    ensures at + |w| <= |full| && full[at..at + |w|] == w && full[at + |w|..] == next
    ensures |w| > 0 ==> full[at] == w[0]
  {
    assert full[at..][..|w|] == w && full[at..][|w|..] == next;
    assert |w| > 0 ==> full[at..][0] == w[0];
  }

  lemma AllLead(t: Tape, w: Streams, next: Streams)
    requires TapeValid(t) && Unread(t) == Join(w, next)
    ensures t.chunk.ints[t.ints..] == w.ints + next.ints && t.chunk.errnos[t.errnos..] == w.errnos + next.errnos
    ensures t.chunk.shorts[t.shorts..] == w.shorts + next.shorts && t.chunk.data[t.data..] == w.data + next.data
    ensures t.chunk.sched[t.sched..] == w.sched + next.sched
  {}

  ghost predicate PlaysBack(c: Codec, o: Obs, t: Tape, next: Streams)
    requires TapeValid(t)
  {
    var r := Played(c, AskedFor(o), t);
    if CountFits(o) then r.Some? && r.value.0 == o && Unread(r.value.1) == next && r.value.1.file == t.file
    else r.None? || r.value.0 != o
  }

  lemma PlayedEvent(c: Codec, o: Obs, t: Tape, next: Streams)
    requires TapeValid(t) && GoodObs(o) && !o.Got? && Unread(t) == Join(Writes(o), next)
    ensures PlaysBack(c, o, t, next)
  {
    hide Join;
    var w := Writes(o);
    AllLead(t, w, next);
    Leads(t.chunk.sched, t.sched, w.sched, next.sched);
  }

  lemma PlayedQuery(c: Codec, o: Obs, t: Tape, next: Streams)
    requires TapeValid(t) && GoodObs(o) && o.Got? && o.op in {LastPort, GetError} && Unread(t) == Join(Writes(o), next)
    ensures PlaysBack(c, o, t, next)
  {
    hide Join;
    var w := Writes(o);
    AllLead(t, w, next);
    Leads(t.chunk.ints, t.ints, w.ints, next.ints);
    Leads(t.chunk.errnos, t.errnos, w.errnos, next.errnos);
  }

  lemma PlayedRead(c: Codec, o: Obs, t: Tape, next: Streams)
    requires TapeValid(t) && GoodObs(o) && o.Got? && o.op in {Read, Receive} && Unread(t) == Join(Writes(o), next)
    ensures PlaysBack(c, o, t, next)
  {
    hide Join, Short, GoodElements;
    var w := Writes(o);
    ShortKeeps(o.ret);
    AllLead(t, w, next);
    Leads(t.chunk.shorts, t.shorts, w.shorts, next.shorts);
    Leads(t.chunk.errnos, t.errnos, w.errnos, next.errnos);
    Leads(t.chunk.data, t.data, w.data, next.data);
  }

  /** The next observation is read back exactly when its count fits. */
  lemma PlayedDo(c: Codec, o: Obs, t: Tape, next: Streams)
    requires TapeValid(t) && GoodObs(o) && Unread(t) == Join(Writes(o), next)
    ensures PlaysBack(c, o, t, next)
  {
    hide Join, PlaysBack, Writes, Unread;
    if !o.Got? { PlayedEvent(c, o, t, next); }
    else if o.op in {LastPort, GetError} { PlayedQuery(c, o, t, next); }
    else { PlayedRead(c, o, t, next); }
  }

  /** A wrong error number is seen by the call that asks for it. */
  lemma PlayedWrong(c: Codec, o: Obs, t: Tape, next: Streams)
    requires TapeValid(t) && GoodObs(o) && Unread(t).errnos != [] && |Writes(o).errnos| == 1
    requires SameBut(Unread(t), Join(Writes(o), next)) && Unread(t).errnos[0] != Writes(o).errnos[0]
    ensures var r := Played(c, AskedFor(o), t); r.None? || r.value.0 != o
  {
    assert Unread(t).errnos[0] == t.chunk.errnos[t.errnos];
  }

  function Fresh(t: Streams, file: seq<Byte>): Tape { Tape(t, 0, 0, 0, 0, 0, file) }

  /** At a marker the next chunk is loaded; the stream positions agree there, so only its error numbers can be in the
      way. */
  lemma PlayedDump(c: Codec, t: Tape, s: seq<Step>)
    requires Sane(c) && GoodSteps(s) && Chunked(s) && StreamsFit(Ahead(s)) && GoodStreams(Ahead(s))
    requires TapeValid(t) && Unread(t) == MARKER && t.file == Chunk(c, Ahead(s)) + Later(c, s)
    ensures var r := UnChunk(c, t.file);
            Played(c, Return, t) == if r.Some? then Played(c, Return, Fresh(r.value.0, r.value.1)) else None
  {
    hide Chunk, UnChunk, StreamsFit, GoodStreams, KeepsAll, Ahead, Later;
    assert Unread(t).sched[0] == MARK;
    var after := t.(sched := t.sched + 1);
    assert t.chunk.sched[t.sched + 1..] == Unread(t).sched[1..] == [];
    assert Unread(after) == NOTHING;
  }

  lemma {:induction false} NoObservations(c: Codec, s: seq<Step>)
    requires Observations(s) == []
    ensures CountsFit(s) && LaterKept(c, s) && Ahead(s).(sched := []) == NOTHING
    decreases |s|
  {
    if s != [] { NoObservations(c, s[1..]); }
  }

  lemma CountsFitFirst(s: seq<Step>)
    requires s != []
    ensures CountsFit(s) <==> (s[0].Do? ==> CountFits(s[0].o)) && CountsFit(s[1..])
  {
    if (s[0].Do? ==> CountFits(s[0].o)) && CountsFit(s[1..]) {
      forall i | 0 <= i < |s| && s[i].Do? ensures CountFits(s[i].o) {
        if i > 0 { assert s[i] == s[1..][i - 1]; }
      }
    }
    if CountsFit(s) {
      forall i | 0 <= i < |s[1..]| && s[1..][i].Do? ensures CountFits(s[1..][i].o) { assert s[1..][i] == s[i + 1]; }
    }
  }

  /** Apart from schedule codes, everything has been read. */
  predicate ReadOut(t: Tape)
    requires TapeValid(t)
  {
    Unread(t).(sched := []) == NOTHING
  }

  /** The replay from here on sees what was recorded, and reads all of it. */
  ghost predicate Faithful(c: Codec, server: Server, h: seq<Obs>, s: seq<Step>, t: Tape)
    requires TapeValid(t)
  {
    var r := Replay(c, server, h, t, |Observations(s)|);
    r.Some? && r.value.0 == h + Observations(s) && ReadOut(r.value.1)
  }

  /** In the middle of a run, with the error numbers of the current chunk possibly wrong, the replay is faithful exactly
      when they are right, all counts fit and all later error numbers are kept. */
  lemma {:induction false} ReplayExactly(c: Codec, server: Server, h: seq<Obs>, s: seq<Step>, t: Tape)
    requires Sane(c) && GoodSteps(s) && Chunked(s) && RunOf(server, h, s)
    requires TapeValid(t) && SameBut(Unread(t), Ahead(s)) && t.file == Later(c, s)
    ensures Faithful(c, server, h, s, t) <==> CountsFit(s) && LaterKept(c, s) && Unread(t) == Ahead(s)
    decreases |s|
  {
    if Observations(s) == [] {
      NoObservations(c, s);
      assert h + [] == h;
    } else {
      CountsFitFirst(s);
      match s[0] {
        case Do(o) => ReplayDo(c, server, h, s, t);
        case Dump => ReplayDump(c, server, h, s, t);
      }
    }
  }

  /** A step that plays back leaves the question to the rest of the run; one that does not settles it. */
  lemma FaithfulStep(c: Codec, server: Server, h: seq<Obs>, s: seq<Step>, t: Tape)
    requires TapeValid(t) && s != [] && s[0].Do?
    ensures var r := Played(c, server(h), t); var o := s[0].o;
            if r.Some? && r.value.0 == o then Faithful(c, server, h, s, t) <==>
              Faithful(c, server, h + [o], s[1..], r.value.1)
            else !Faithful(c, server, h, s, t)
  {
    hide Played, ReadOut;
    var o, rest := s[0].o, s[1..];
    var r := Played(c, server(h), t);
    assert (h + [o]) + Observations(rest) == h + Observations(s);
    if r.Some? && r.value.0 != o {
      var more := Replay(c, server, h + [r.value.0], r.value.1, |Observations(rest)|);
      if more.Some? {
        assert more.value.0[..|h| + 1][|h|] == r.value.0;
        assert (h + Observations(s))[|h|] == o;
      }
    }
  }

  /** The error number of the next call comes first among those not read. */
  lemma Ahead1(u: Streams, w: Streams, next: Streams) returns (rest: Streams)
    requires SameBut(u, Join(w, next))
    ensures SameBut(rest, next) && |w.errnos| <= |u.errnos|
    ensures u.errnos[..|w.errnos|] == w.errnos ==> u == Join(w, rest) && (u == Join(w, next) <==> rest == next)
    ensures u.errnos[..|w.errnos|] != w.errnos ==> u != Join(w, next)
  {
    var n := |w.errnos|;
    rest := next.(errnos := u.errnos[n..]);
    assert (w.errnos + next.errnos)[..n] == w.errnos && (w.errnos + next.errnos)[n..] == next.errnos;
    assert u.errnos == u.errnos[..n] + u.errnos[n..];
  }

  lemma FewErrnos(o: Obs)
    ensures |Writes(o).errnos| <= 1
  {}

  lemma ReplayDo(c: Codec, server: Server, h: seq<Obs>, s: seq<Step>, t: Tape)
    requires Sane(c) && GoodSteps(s) && Chunked(s) && RunOf(server, h, s)
    requires TapeValid(t) && SameBut(Unread(t), Ahead(s)) && t.file == Later(c, s)
    requires s != [] && s[0].Do? && (CountsFit(s) <==> CountFits(s[0].o) && CountsFit(s[1..]))
    ensures Faithful(c, server, h, s, t) <==> CountsFit(s) && LaterKept(c, s) && Unread(t) == Ahead(s)
    decreases |s|, 0
  {
    hide Played, CountsFit, Unread, Writes, Join, GoodObs, CountFits, TapeValid, Faithful, SameBut;
    var o, rest := s[0].o, s[1..];
    var u, w := Unread(t), Writes(o);
    var next := Ahead1(u, w, Ahead(rest));
    FaithfulStep(c, server, h, s, t);
    if u.errnos[..|w.errnos|] == w.errnos {
      PlayedDo(c, o, t, next);
      if CountFits(o) { ReplayExactly(c, server, h + [o], rest, Played(c, server(h), t).value.1); }
    } else {
      FewErrnos(o);
      assert |w.errnos| == 1 by { assert u.errnos[..0] == []; }
      assert u.errnos[..1] == [u.errnos[0]] && w.errnos == [w.errnos[0]];
      PlayedWrong(c, o, t, Ahead(rest));
    }
  }

  lemma ReplayDump(c: Codec, server: Server, h: seq<Obs>, s: seq<Step>, t: Tape)
    requires Sane(c) && GoodSteps(s) && Chunked(s) && RunOf(server, h, s) && Observations(s) != []
    requires TapeValid(t) && SameBut(Unread(t), Ahead(s)) && t.file == Later(c, s)
    requires s != [] && s[0].Dump? && (CountsFit(s) <==> CountsFit(s[1..]))
    ensures Faithful(c, server, h, s, t) <==> CountsFit(s) && LaterKept(c, s) && Unread(t) == Ahead(s)
    decreases |s|, 0
  {
    hide Played, CountsFit, ReadOut, KeepsAll, Chunk, UnChunk;
    var rest := s[1..];
    AheadGood(rest);
    assert Unread(t) == MARKER;
    PlayedDump(c, t, rest);
    UnChunkBack(c, Ahead(rest), Later(c, rest));
    var r := UnChunk(c, t.file);
    if r.Some? {
      var t2 := Fresh(r.value.0, r.value.1);
      assert Unread(t2) == r.value.0;
      ReplayExactly(c, server, h, rest, t2);
    }
  }

  // ----- Whole recordings

  /** Playback of a file: the first chunk is loaded at the start. */
  ghost predicate PlaybackReproduces(c: Codec, server: Server, s: seq<Step>, file: seq<Byte>) {
    var first := Load(c, Fresh(NOTHING, file));
    first.Some? && Faithful(c, server, [], s, first.value)
  }

  /** The codec keeps every recorded error number. */
  predicate AllKept(c: Codec, s: seq<Step>) { KeepsAll(c, Ahead(s).errnos) && LaterKept(c, s) }

  /** Playing back a recording reproduces the run exactly when every count of a read fits a short and the codec
      keeps the error numbers; where the chunks end does not matter. */
  lemma PlaybackExactly(c: Codec, server: Server, s: seq<Step>)
    requires Sane(c) && GoodSteps(s) && Within(NOTHING, s) && Finished(s) && RunOf(server, [], s)
    ensures GoodStreams(NOTHING)
    ensures PlaybackReproduces(c, server, s, Recorded(c, NOTHING, [], s).1) <==> CountsFit(s) && AllKept(c, s)
  {
    hide Chunk, UnChunk, StreamsFit, GoodStreams, KeepsAll, Faithful;
    MarkerGood();
    RecordedIsLater(c, NOTHING, [], s);
    JoinEmpty(Ahead(s));
    var file := Recorded(c, NOTHING, [], s).1;
    assert file == Chunk(c, Ahead(s)) + Later(c, s);
    UnChunkBack(c, Ahead(s), Later(c, s));
    var t := Fresh(NOTHING, file);
    assert Unread(t) == NOTHING;
    var r := UnChunk(c, file);
    if r.Some? {
      var t2 := Fresh(r.value.0, r.value.1);
      assert Unread(t2) == r.value.0;
      ReplayExactly(c, server, [], s, t2);
    }
  }

  /** No observation records an error number. */
  predicate ErrnoFree(s: seq<Step>) { forall i :: 0 <= i < |s| && s[i].Do? ==> Writes(s[i].o).errnos == [] }

  lemma {:induction false} KeptWhenFree(s: seq<Step>)
    ensures AllKept(FallThrough(), s) <==> ErrnoFree(s)
    decreases |s|
  {
    var c := FallThrough();
    assert forall es: seq<int> :: KeepsAll(c, es) <==> es == [] by {
      forall es: seq<int> ensures KeepsAll(c, es) <==> es == [] {
        if es != [] { assert es[0] in es && !Kept(c, Errnos, es[0]); }
      }
    }
    if s != [] {
      KeptWhenFree(s[1..]);
      FreeFirst(s);
    }
  }

  lemma FreeFirst(s: seq<Step>)
    requires s != []
    ensures ErrnoFree(s) <==> (s[0].Do? ==> Writes(s[0].o).errnos == []) && ErrnoFree(s[1..])
  {
    hide Writes;
    if (s[0].Do? ==> Writes(s[0].o).errnos == []) && ErrnoFree(s[1..]) {
      forall i | 0 <= i < |s| && s[i].Do? ensures Writes(s[i].o).errnos == [] {
        if i > 0 { assert s[i] == s[1..][i - 1]; }
      }
    }
    if ErrnoFree(s) {
      forall i | 0 <= i < |s[1..]| && s[1..][i].Do?
        ensures Writes(s[1..][i].o).errnos == []
      {
        assert s[1..][i] == s[i + 1];
      }
    }
  }

  /** With the conversion as written, playback works exactly when no call ever failed or asked for an error number. */
  lemma PlaybackAsWritten(server: Server, s: seq<Step>)
    requires GoodSteps(s) && Within(NOTHING, s) && Finished(s) && RunOf(server, [], s)
    ensures Sane(FallThrough()) && GoodStreams(NOTHING)
    ensures PlaybackReproduces(FallThrough(), server, s, Recorded(FallThrough(), NOTHING, [], s).1) <==>
            CountsFit(s) && ErrnoFree(s)
  {
    PlaybackExactly(FallThrough(), server, s);
    KeptWhenFree(s);
  }

  /** With error numbers kept, playback works exactly when the counts fit. */
  lemma PlaybackWithErrnos(server: Server, s: seq<Step>)
    requires GoodSteps(s) && Within(NOTHING, s) && Finished(s) && RunOf(server, [], s)
    ensures Sane(Plain()) && GoodStreams(NOTHING)
    ensures PlaybackReproduces(Plain(), server, s, Recorded(Plain(), NOTHING, [], s).1) <==> CountsFit(s)
  {
    PlaybackExactly(Plain(), server, s);
    PlainKeeps(s);
  }

  lemma {:induction false} PlainKeeps(s: seq<Step>)
    ensures AllKept(Plain(), s)
    decreases |s|
  {
    if s != [] { PlainKeeps(s[1..]); }
  }

  // ----- Inputs on which it fails

  /** A server that makes one call as soon as it starts. */
  function Once(op: Op): Server { (h: seq<Obs>) => if h == [] then op else Return }

  /** A recording of one call. */
  function OneCall(o: Obs): seq<Step> { [Do(o), Dump] }

  lemma OneCallRuns(o: Obs)
    requires GoodObs(o) && o.Got? && |o.bytes| <= 199996
    ensures GoodSteps(OneCall(o)) && Within(NOTHING, OneCall(o)) && Finished(OneCall(o)) &&
            RunOf(Once(o.op), [], OneCall(o))
  {
    JoinEmpty(Writes(o));
    assert OneCall(o)[1..] == [Dump] && [Dump][1..] == [];
    assert Once(o.op)([o]) == Return;
    assert StreamsFit(Join(Writes(o), MARKER));
    assert Within(Writes(o), [Dump]);
    assert RunOf(Once(o.op), [o], [Dump]);
  }

  /** As the code stands, a single read that finds nothing spoils a recording. */
  lemma EmptyReadSpoils()
    ensures var o := Got(Read, 0, [], 0); var s := OneCall(o);
            GoodSteps(s) && Within(NOTHING, s) && Finished(s) && RunOf(Once(Read), [], s) && CountsFit(s) &&
            Sane(FallThrough()) && GoodStreams(NOTHING) &&
            !PlaybackReproduces(FallThrough(), Once(Read), s, Recorded(FallThrough(), NOTHING, [], s).1)
  {
    hide PlaybackReproduces, Recorded, RunOf, Within;
    var o := Got(Read, 0, [], 0);
    var s := OneCall(o);
    OneCallRuns(o);
    PlaybackAsWritten(Once(Read), s);
    assert s[0].Do? && Writes(s[0].o).errnos == [0];
  }

  // ----- The server's own reads

  /** The size of the buffer into which the server reads every packet. */
  const RECV_SIZE := 1024

  /** Every read fails with -1 or stays within the buffer. */
  predicate BufferedReads(s: seq<Step>) {
    forall i :: 0 <= i < |s| && s[i].Do? && s[i].o.Got? && s[i].o.op in {Read, Receive} ==>
      -1 <= s[i].o.ret <= RECV_SIZE
  }

  /** So counts always fit: with error numbers kept every run plays back, and as written the runs without any. */
  lemma BufferedPlayback(server: Server, s: seq<Step>)
    requires GoodSteps(s) && Within(NOTHING, s) && Finished(s) && RunOf(server, [], s) && BufferedReads(s)
    ensures Sane(Plain()) && Sane(FallThrough()) && GoodStreams(NOTHING) && CountsFit(s)
    ensures PlaybackReproduces(Plain(), server, s, Recorded(Plain(), NOTHING, [], s).1)
    ensures PlaybackReproduces(FallThrough(), server, s, Recorded(FallThrough(), NOTHING, [], s).1) <==> ErrnoFree(s)
  {
    hide PlaybackReproduces, Recorded, RunOf, Within;
    PlaybackWithErrnos(server, s);
    PlaybackAsWritten(server, s);
  }
}
