/**
 * The JSON-over-Redis-stream helpers (app/stream_json.py). The writer appends one
 * entry per chunk and trims the stream only after the terminal chunk; the reader
 * polls with the id of the last entry it has seen and stops after the first
 * chunk that reports `"done": true`.
 *
 * Redis is not called: the writer returns the commands it issues, and the reader
 * takes the successive `XREAD` answers as a sequence. JSON encoding is left to the
 * caller: a chunk is its encoded text, and whether a decoded item carries
 * `"done": true` is a predicate on that text.
 */
module StreamJson {
  import opened Wrappers

  const JsonField := "json"
  const DefaultTerminalMaxlen := 10000
  const DefaultLastId := "0-0"
  const DefaultBlockMs := 15000
  const DefaultCount := 100

  type Fields = map<string, string>

  /** The two stream commands the writer issues. */
  datatype Command =
    | Xadd(stream: string, fields: Fields, id: string, maxlen: Option<int>, approximate: bool)
    | Xtrim(stream: string, trimTo: int, approximate: bool)

  // ---------------------------------------------------------------------------
  // Writing
  // ---------------------------------------------------------------------------

  /** `write_response_raw_json(redis, key, payload, done=..., terminal_maxlen=...)`, with the
      payload already encoded as `text`: the commands, in the order they are sent. */
  function WriteResponse(key: string, text: string, done: bool, terminalMaxlen: int): (cmds: seq<Command>)
    ensures 1 <= |cmds| <= 2 && (|cmds| == 2 <==> done)
    ensures cmds[0].Xadd? && cmds[0].stream == key && cmds[0].fields == map[JsonField := text] && cmds[0].maxlen.None?
    ensures done ==> cmds[1] == Xtrim(key, terminalMaxlen, true)
  {
    var add := Xadd(key, map[JsonField := text], "*", None, true);
    if done then [add, Xtrim(key, terminalMaxlen, true)] else [add]
  }

  /** One call of the writer: the encoded payload and its `done` flag. */
  datatype Chunk = Chunk(text: string, done: bool)

  /** A producer writing its chunks in order. */
  function Session(key: string, chunks: seq<Chunk>, terminalMaxlen: int): seq<Command> {
    if |chunks| == 0 then []
    else
      var last := chunks[|chunks| - 1];
      Session(key, chunks[..|chunks| - 1], terminalMaxlen) + WriteResponse(key, last.text, last.done, terminalMaxlen)
  }

  function ChunkTexts(chunks: seq<Chunk>): (r: seq<string>)
    ensures |r| == |chunks| && forall i :: 0 <= i < |chunks| ==> r[i] == chunks[i].text
  {
    seq(|chunks|, i requires 0 <= i < |chunks| => chunks[i].text)
  }

  /** The `json` fields the commands append to the stream, in order. */
  function Appended(cmds: seq<Command>): seq<string> {
    if |cmds| == 0 then []
    else
      var c := cmds[|cmds| - 1];
      Appended(cmds[..|cmds| - 1]) + (if c.Xadd? && JsonField in c.fields then [c.fields[JsonField]] else [])
  }

  lemma {:induction false} AppendedConcat(a: seq<Command>, b: seq<Command>)
    ensures Appended(a + b) == Appended(a) + Appended(b)
  {
    if |b| == 0 {
      assert a + b == a;
    } else {
      AppendedConcat(a, b[..|b| - 1]);
      var ab := a + b;
      assert ab[..|ab| - 1] == a + b[..|b| - 1];
      assert ab[|ab| - 1] == b[|b| - 1];
    }
  }

  lemma WriteAppendsOne(key: string, text: string, done: bool, terminalMaxlen: int)
    ensures Appended(WriteResponse(key, text, done, terminalMaxlen)) == [text]
  {
    var add := Xadd(key, map[JsonField := text], "*", None, true);
    assert Appended([add]) == [text] by {
      assert [add][..0] == [];
    }
    if done {
      var w := [add, Xtrim(key, terminalMaxlen, true)];
      assert w[..1] == [add];
    }
  }

  lemma SessionStep(key: string, chunks: seq<Chunk>, terminalMaxlen: int)
    requires |chunks| > 0
    ensures Appended(Session(key, chunks, terminalMaxlen)) ==
      Appended(Session(key, chunks[..|chunks| - 1], terminalMaxlen)) + [chunks[|chunks| - 1].text]
  {
    var n := |chunks| - 1;
    var pre := Session(key, chunks[..n], terminalMaxlen);
    var w := WriteResponse(key, chunks[n].text, chunks[n].done, terminalMaxlen);
    AppendedConcat(pre, w);
    WriteAppendsOne(key, chunks[n].text, chunks[n].done, terminalMaxlen);
  }

  lemma ChunkTextsStep(chunks: seq<Chunk>)
    requires |chunks| > 0
    ensures ChunkTexts(chunks) == ChunkTexts(chunks[..|chunks| - 1]) + [chunks[|chunks| - 1].text]
  {
  }

  /** Every chunk is appended exactly once, in order. */
  lemma {:induction false} SessionAppendsChunks(key: string, chunks: seq<Chunk>, terminalMaxlen: int)
    ensures Appended(Session(key, chunks, terminalMaxlen)) == ChunkTexts(chunks)
  {
    if |chunks| > 0 {
      var n := |chunks| - 1;
      SessionAppendsChunks(key, chunks[..n], terminalMaxlen);
      SessionStep(key, chunks, terminalMaxlen);
      ChunkTextsStep(chunks);
    }
  }

  /** While no chunk is terminal the stream is never trimmed, and no append caps its length. */
  lemma {:induction false} ActiveStreamNotTrimmed(key: string, chunks: seq<Chunk>, terminalMaxlen: int)
    requires forall i :: 0 <= i < |chunks| ==> !chunks[i].done
    ensures forall c :: c in Session(key, chunks, terminalMaxlen) ==> c.Xadd? && c.maxlen.None?
  {
    if |chunks| > 0 {
      ActiveStreamNotTrimmed(key, chunks[..|chunks| - 1], terminalMaxlen);
    }
  }

  /** When only the last chunk is terminal, the stream is trimmed once, as the very last
      command, to the terminal length. */
  lemma TerminalTrimIsLast(key: string, chunks: seq<Chunk>, terminalMaxlen: int)
    requires |chunks| > 0 && chunks[|chunks| - 1].done
    requires forall i :: 0 <= i < |chunks| - 1 ==> !chunks[i].done
    ensures var cmds := Session(key, chunks, terminalMaxlen);
      && cmds[|cmds| - 1] == Xtrim(key, terminalMaxlen, true)
      && forall i :: 0 <= i < |cmds| - 1 ==> cmds[i].Xadd?
  {
    var n := |chunks| - 1;
    ActiveStreamNotTrimmed(key, chunks[..n], terminalMaxlen);
    var pre := Session(key, chunks[..n], terminalMaxlen);
    var cmds := Session(key, chunks, terminalMaxlen);
    forall i | 0 <= i < |cmds| - 1 ensures cmds[i].Xadd? {
      if i < |pre| {
        assert cmds[i] == pre[i];
        assert pre[i] in pre;
      }
    }
  }

  // ---------------------------------------------------------------------------
  // Reading
  // ---------------------------------------------------------------------------

  /** One stream entry: its id and its field map. */
  datatype Entry = Entry(id: string, fields: Fields)

  /** One `XREAD` answer: per stream, its entries. */
  type Rows = seq<(string, seq<Entry>)>

  /** One `XREAD` request: the stream and the id to read after, the count and the block time. */
  datatype XRead = XRead(streams: map<string, string>, count: int, block: int)

  /** The entries of one answer, stream by stream. */
  function Flatten(rows: Rows): seq<Entry> {
    if |rows| == 0 then [] else Flatten(rows[..|rows| - 1]) + rows[|rows| - 1].1
  }

  /** The entries of a run of answers, in the order they were delivered. */
  function AllEntries(replies: seq<Rows>): seq<Entry> {
    if |replies| == 0 then [] else AllEntries(replies[..|replies| - 1]) + Flatten(replies[|replies| - 1])
  }

  /** The `json` fields of the entries that have one, in order. */
  function Texts(es: seq<Entry>): seq<string> {
    if |es| == 0 then []
    else
      var e := es[|es| - 1];
      Texts(es[..|es| - 1]) + (if JsonField in e.fields then [e.fields[JsonField]] else [])
  }

  /** The id to resume after: the last entry's, or the starting id when there is none. */
  function LastId(start: string, es: seq<Entry>): string {
    if |es| == 0 then start else es[|es| - 1].id
  }

  predicate AnyDone(texts: seq<string>, isDone: string -> bool) {
    exists i :: 0 <= i < |texts| && isDone(texts[i])
  }

  /** The items up to and including the first terminal one. */
  function UpToDone(texts: seq<string>, isDone: string -> bool): (r: seq<string>)
    ensures |r| <= |texts| && r == texts[..|r|]
    ensures !AnyDone(texts, isDone) ==> r == texts
  {
    if |texts| == 0 then []
    else if isDone(texts[0]) then [texts[0]]
    else
      AnyDoneTail(texts, isDone);
      [texts[0]] + UpToDone(texts[1..], isDone)
  }

  lemma AnyDoneTail(texts: seq<string>, isDone: string -> bool)
    requires |texts| > 0
    ensures AnyDone(texts[1..], isDone) ==> AnyDone(texts, isDone)
  {
    if AnyDone(texts[1..], isDone) {
      var i :| 0 <= i < |texts[1..]| && isDone(texts[1..][i]);
      assert texts[i + 1] == texts[1..][i];
    }
  }

  lemma {:induction false} TextsConcat(a: seq<Entry>, b: seq<Entry>)
    ensures Texts(a + b) == Texts(a) + Texts(b)
  {
    if |b| == 0 {
      assert a + b == a;
    } else {
      TextsConcat(a, b[..|b| - 1]);
      var ab := a + b;
      assert ab[..|ab| - 1] == a + b[..|b| - 1];
      assert ab[|ab| - 1] == b[|b| - 1];
    }
  }

  lemma {:induction false} AllEntriesConcat(a: seq<Rows>, b: seq<Rows>)
    ensures AllEntries(a + b) == AllEntries(a) + AllEntries(b)
  {
    if |b| == 0 {
      assert a + b == a;
    } else {
      AllEntriesConcat(a, b[..|b| - 1]);
      var ab := a + b;
      assert ab[..|ab| - 1] == a + b[..|b| - 1];
      assert ab[|ab| - 1] == b[|b| - 1];
    }
  }

  lemma AllEntriesNext(replies: seq<Rows>, r: nat)
    requires r < |replies|
    ensures AllEntries(replies[..r + 1]) == AllEntries(replies[..r]) + Flatten(replies[r])
  {
    assert replies[..r + 1][..r] == replies[..r];
  }

  /** Once a terminal item has been read, whatever follows changes nothing. */
  lemma {:induction false} UpToDoneStops(a: seq<string>, b: seq<string>, isDone: string -> bool)
    requires AnyDone(a, isDone)
    ensures UpToDone(a + b, isDone) == UpToDone(a, isDone) && AnyDone(a + b, isDone)
  {
    var i :| 0 <= i < |a| && isDone(a[i]);
    assert (a + b)[i] == a[i];
    if !isDone(a[0]) {
      assert isDone(a[1..][i - 1]);
      assert (a + b)[1..] == a[1..] + b;
      UpToDoneStops(a[1..], b, isDone);
    }
  }

  /** The item that ends the read is the last one yielded. */
  lemma {:induction false} UpToDoneAtDone(a: seq<string>, x: string, isDone: string -> bool)
    requires !AnyDone(a, isDone) && isDone(x)
    ensures UpToDone(a + [x], isDone) == a + [x] && AnyDone(a + [x], isDone)
  {
    assert (a + [x])[|a|] == x;
    if |a| > 0 {
      assert !isDone(a[0]);
      assert (a + [x])[1..] == a[1..] + [x];
      AnyDoneTail(a, isDone);
      UpToDoneAtDone(a[1..], x, isDone);
    }
  }

  lemma NoDoneExtends(a: seq<string>, x: string, isDone: string -> bool)
    requires !AnyDone(a, isDone) && !isDone(x)
    ensures !AnyDone(a + [x], isDone)
  {
    forall i | 0 <= i < |a + [x]| ensures !isDone((a + [x])[i]) {
      if i < |a| {
        assert (a + [x])[i] == a[i];
      }
    }
  }

  /** Reading one more entry: its id becomes the resume point and its `json` field, if any,
      the next item. */
  lemma EntryStep(start: string, seen: seq<Entry>, es: seq<Entry>, e: nat)
    requires e < |es|
    ensures Texts(seen + es[..e + 1]) ==
      Texts(seen + es[..e]) + (if JsonField in es[e].fields then [es[e].fields[JsonField]] else [])
    ensures LastId(start, seen + es[..e + 1]) == es[e].id
  {
    assert seen + es[..e + 1] == (seen + es[..e]) + [es[e]];
    assert ((seen + es[..e]) + [es[e]])[..|seen + es[..e]|] == seen + es[..e];
  }

  /** The answers after the one holding the stopping item are never read. */
  lemma {:induction false} PrefixDecides(replies: seq<Rows>, q: nat, isDone: string -> bool)
    requires q <= |replies| && AnyDone(Texts(AllEntries(replies[..q])), isDone)
    ensures UpToDone(Texts(AllEntries(replies)), isDone) == UpToDone(Texts(AllEntries(replies[..q])), isDone)
    ensures AnyDone(Texts(AllEntries(replies)), isDone)
  {
    if q < |replies| {
      var n := |replies| - 1;
      assert replies[..n][..q] == replies[..q];
      PrefixDecides(replies[..n], q, isDone);
      var before, last := AllEntries(replies[..n]), Flatten(replies[n]);
      assert AllEntries(replies) == before + last;
      TextsConcat(before, last);
      UpToDoneStops(Texts(before), Texts(last), isDone);
    } else {
      assert replies[..q] == replies;
    }
  }

  /** What the reader holds after the entries `seen + prefix`: the items, the resume id and
      whether it has stopped. */
  predicate ReadSoFar(seen: seq<Entry>, prefix: seq<Entry>, items: seq<string>, lastId: string, stopped: bool,
                      startId: string, isDone: string -> bool) {
    if stopped then
      items == UpToDone(Texts(seen + prefix), isDone) && AnyDone(Texts(seen + prefix), isDone)
    else
      items == Texts(seen + prefix) && !AnyDone(items, isDone) && lastId == LastId(startId, seen + prefix)
  }

  /** One entry read: its id is the resume id, and its `json` field, if any, is the next item,
      which stops the reader when terminal. */
  lemma ReadStep(seen: seq<Entry>, es: seq<Entry>, e: nat, items: seq<string>, lastId: string,
                 startId: string, isDone: string -> bool)
    requires e < |es| && ReadSoFar(seen, es[..e], items, lastId, false, startId, isDone)
    ensures JsonField !in es[e].fields ==> ReadSoFar(seen, es[..e + 1], items, es[e].id, false, startId, isDone)
    ensures JsonField in es[e].fields ==>
      var raw := es[e].fields[JsonField];
      ReadSoFar(seen, es[..e + 1], items + [raw], es[e].id, isDone(raw), startId, isDone)
  {
    EntryStep(startId, seen, es, e);
    if JsonField in es[e].fields {
      var raw := es[e].fields[JsonField];
      if isDone(raw) {
        UpToDoneAtDone(items, raw, isDone);
      } else {
        NoDoneExtends(items, raw, isDone);
      }
    }
  }

  /** The two `for` loops of `iter_stream_json` over one `XREAD` answer, whose entries are
      `es`, after the entries `seen` have been read without reaching a terminal item. */
  method ReadAnswer(ghost seen: seq<Entry>, es: seq<Entry>, items0: seq<string>, lastId0: string, startId: string, isDone: string -> bool)
    returns (items: seq<string>, lastId: string, stopped: bool)
    requires items0 == Texts(seen) && !AnyDone(items0, isDone)
    requires lastId0 == LastId(startId, seen)
    ensures stopped <==> AnyDone(Texts(seen + es), isDone)
    ensures items == UpToDone(Texts(seen + es), isDone)
    ensures !stopped ==> lastId == LastId(startId, seen + es)
  {
    items, lastId, stopped := items0, lastId0, false;
    assert seen + es[..0] == seen;
    var e := 0;
    while e < |es| && !stopped
      invariant 0 <= e <= |es|
      invariant ReadSoFar(seen, es[..e], items, lastId, stopped, startId, isDone)
    {
      var entry := es[e];
      ReadStep(seen, es, e, items, lastId, startId, isDone);
      lastId := entry.id;
      if JsonField in entry.fields {
        var raw := entry.fields[JsonField];
        items := items + [raw];
        stopped := isDone(raw);
      }
      e := e + 1;
    }
    if stopped {
      RestUnread(seen, es, e, isDone);
    } else {
      assert es[..e] == es;
    }
  }

  /** After the stopping entry, the rest of the answer is unread. */
  lemma RestUnread(seen: seq<Entry>, es: seq<Entry>, e: nat, isDone: string -> bool)
    requires e <= |es| && AnyDone(Texts(seen + es[..e]), isDone)
    ensures UpToDone(Texts(seen + es), isDone) == UpToDone(Texts(seen + es[..e]), isDone)
    ensures AnyDone(Texts(seen + es), isDone)
  {
    assert seen + es == (seen + es[..e]) + es[e..];
    TextsConcat(seen + es[..e], es[e..]);
    UpToDoneStops(Texts(seen + es[..e]), Texts(es[e..]), isDone);
  }

  /** `iter_stream_json(redis, key, last_id=startId, block_ms=..., count=...)`, fed the
      successive `XREAD` answers `replies`: the items it yields, the requests it makes, and
      whether it returned (rather than going on waiting for more answers). */
  method IterStreamJson(key: string, startId: string, blockMs: int, count: int, replies: seq<Rows>, isDone: string -> bool)
    returns (items: seq<string>, requests: seq<XRead>, finished: bool)
    ensures items == UpToDone(Texts(AllEntries(replies)), isDone)
    ensures finished <==> AnyDone(Texts(AllEntries(replies)), isDone)
    ensures |requests| <= |replies| && (!finished ==> |requests| == |replies|)
    ensures forall k :: 0 <= k < |requests| ==>
      requests[k] == XRead(map[key := LastId(startId, AllEntries(replies[..k]))], count, blockMs)
    ensures finished ==> (0 < |requests|
      && AnyDone(Texts(AllEntries(replies[..|requests|])), isDone)
      && !AnyDone(Texts(AllEntries(replies[..|requests| - 1])), isDone))
  {
    items, requests, finished := [], [], false;
    var lastId := startId;
    var r := 0;
    while r < |replies| && !finished
      invariant 0 <= r <= |replies| && |requests| == r
      invariant forall k :: 0 <= k < r ==>
        requests[k] == XRead(map[key := LastId(startId, AllEntries(replies[..k]))], count, blockMs)
      invariant !finished ==> items == Texts(AllEntries(replies[..r])) && !AnyDone(items, isDone)
      invariant !finished ==> lastId == LastId(startId, AllEntries(replies[..r]))
      invariant finished ==> (0 < r
        && items == UpToDone(Texts(AllEntries(replies[..r])), isDone)
        && AnyDone(Texts(AllEntries(replies[..r])), isDone)
        && !AnyDone(Texts(AllEntries(replies[..r - 1])), isDone))
    {
      requests := requests + [XRead(map[key := lastId], count, blockMs)];
      var rows := replies[r];
      AllEntriesNext(replies, r);
      if |rows| > 0 {
        items, lastId, finished := ReadAnswer(AllEntries(replies[..r]), Flatten(rows), items, lastId, startId, isDone);
      } else {
        assert AllEntries(replies[..r]) + Flatten(rows) == AllEntries(replies[..r]);
      }
      r := r + 1;
    }
    if finished {
      PrefixDecides(replies, r, isDone);
    } else {
      assert replies[..r] == replies;
    }
  }

  // ---------------------------------------------------------------------------
  // Writer and reader together
  // ---------------------------------------------------------------------------

  /** A reader fed exactly what a producer appended (in any batching, with any ids) yields
      every chunk in order and then returns, provided the producer marks the last chunk, and
      only that one, as terminal. */
  lemma WrittenThenRead(key: string, chunks: seq<Chunk>, terminalMaxlen: int, replies: seq<Rows>, isDone: string -> bool)
    requires |chunks| > 0
    requires forall i :: 0 <= i < |chunks| ==> (isDone(chunks[i].text) <==> i == |chunks| - 1)
    requires Texts(AllEntries(replies)) == Appended(Session(key, chunks, terminalMaxlen))
    ensures UpToDone(Texts(AllEntries(replies)), isDone) == ChunkTexts(chunks)
    ensures AnyDone(Texts(AllEntries(replies)), isDone)
  {
    SessionAppendsChunks(key, chunks, terminalMaxlen);
    var texts := ChunkTexts(chunks);
    var n := |chunks| - 1;
    assert texts == texts[..n] + [texts[n]];
    forall i | 0 <= i < n ensures !isDone(texts[..n][i]) {
      assert texts[..n][i] == chunks[i].text;
    }
    UpToDoneAtDone(texts[..n], texts[n], isDone);
  }
}
