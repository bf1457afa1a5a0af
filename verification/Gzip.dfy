/**
 The gzip response writer: it buffers until the threshold is crossed, then
 commits to compressed or plain output.  The compressor is a stream whose
 decoding, once closed, is the concatenation of what was written to it.
 */
module Gzip {
  import opened Text

  type Bytes = seq<bv8>

  /** What the inner http.ResponseWriter is asked to do, in order. */
  datatype Op = Status(code: int) | Raw(data: Bytes) | Deflated(data: Bytes) | Trailer

  datatype State = State(
    contentType: string, encodingHeader: bool, lengthHeader: bool, log: seq<Op>,
    buf: Bytes, status: int, committed: bool, plain: bool, gz: bool)

  predicate Compressible(contentType: string) {
    var ct := Fold(AsciiLower, TrimSpace(Until(contentType, ';')));
    ct == "" || "text/" <= ct || "application/json" <= ct || "application/rdap+json" <= ct
    || "application/xml" <= ct || "application/javascript" <= ct
  }

  /** The text starts with the prefix but for the case of letters. */
  predicate StartsWith(s: string, prefix: string) {
    |prefix| <= |s| && SameText(s[..|prefix|], prefix)
  }

  lemma LowerStartsWith(s: string, prefix: string)
    requires NoCapitals(prefix)
    ensures prefix <= ToLower(s) <==> StartsWith(s, prefix)
  {
    if |prefix| <= |s| {
      var head := s[..|prefix|];
      LowerIs(head, prefix);
      forall i | 0 <= i < |prefix| ensures ToLower(head)[i] == ToLower(s)[i] {
        FoldAt(AsciiLower, head, i);
        FoldAt(AsciiLower, s, i);
      }
      assert ToLower(s)[..|prefix|] == ToLower(head);
    }
  }

  lemma MediaType(a: string, media: string, b: string, params: string)
    requires AllSpace(a) && Tight(media) && AllSpace(b) && ';' !in media
    ensures TrimSpace(Until(a + media + b, ';')) == media
    ensures TrimSpace(Until(a + media + b + ";" + params, ';')) == media
  {
    var ct := a + media + b;
    assert ';' !in ct;
    UntilStops(ct, ';', params);
    TrimSpaceDrops(a, media, b);
  }

  /** Starts like one of the types worth compressing. */
  lemma WorthIff(media: string)
    ensures var ct := ToLower(media);
            (|| ct == "" || "text/" <= ct || "application/json" <= ct || "application/rdap+json" <= ct
             || "application/xml" <= ct || "application/javascript" <= ct)
            <==> (|| media == "" || StartsWith(media, "text/") || StartsWith(media, "application/json")
                  || StartsWith(media, "application/rdap+json") || StartsWith(media, "application/xml")
                  || StartsWith(media, "application/javascript"))
  {
    hide ToLower, StartsWith;
    LowerLength(media);
    LowerStartsWith(media, "text/");
    LowerStartsWith(media, "application/json");
    LowerStartsWith(media, "application/rdap+json");
    LowerStartsWith(media, "application/xml");
    LowerStartsWith(media, "application/javascript");
  }

  lemma LowerLength(s: string)
    ensures |ToLower(s)| == |s|
  {}

  /** The exact test, for every content type: a media type with white space
      around it and, behind a semicolon, parameters that have no say. */
  lemma CompressibleIff(a: string, media: string, b: string, params: string)
    requires AllSpace(a) && Tight(media) && AllSpace(b) && ';' !in media
    ensures var worth := || media == "" || StartsWith(media, "text/") || StartsWith(media, "application/json")
                         || StartsWith(media, "application/rdap+json") || StartsWith(media, "application/xml")
                         || StartsWith(media, "application/javascript");
            && Compressible(a + media + b) == worth && Compressible(a + media + b + ";" + params) == worth
  {
    hide StartsWith, TrimSpace, Until, AllSpace, Tight, Fold;
    MediaType(a, media, b, params);
    WorthIff(media);
  }

  /** The threshold, and the content types worth compressing (`Compressible` in
      the running server; what follows holds for any test). */
  datatype Policy = Policy(minSize: nat, compressible: string -> bool)

  /* One function per method of the writer. */

  function OnCommit(s: State, pol: Policy): State {
    if pol.compressible(s.contentType) && |s.buf| >= pol.minSize then
      s.(committed := true, encodingHeader := true, lengthHeader := false, gz := true,
         log := s.log + [Status(s.status), Deflated(s.buf)], buf := [])
    else
      s.(committed := true, plain := true, log := s.log + [Status(s.status), Raw(s.buf)], buf := [])
  }

  function OnWrite(s: State, pol: Policy, p: Bytes): State {
    if s.committed then
      if s.plain then s.(log := s.log + [Raw(p)])
      else if s.gz then s.(log := s.log + [Deflated(p)])
      else s
    else
      var s' := s.(buf := s.buf + p);
      if |s'.buf| < pol.minSize then s' else OnCommit(s', pol)
  }

  function OnClose(s: State): State {
    if !s.committed then s.(plain := true, log := s.log + [Status(s.status), Raw(s.buf)])
    else if s.gz then s.(log := s.log + [Trailer])
    else s
  }

  class GzipWriter {
    const pol: Policy
    var contentType: string
    var encodingHeader: bool
    var lengthHeader: bool
    var log: seq<Op>
    var buf: Bytes
    var status: int
    var committed: bool
    var plain: bool
    var gz: bool

    function View(): State
      reads this
    {
      State(contentType, encodingHeader, lengthHeader, log, buf, status, committed, plain, gz)
    }

    constructor (minSize: int, contentType: string)
      ensures pol == Policy(if minSize < 0 then 0 else minSize, Compressible)
      ensures View() == Fresh(contentType)
    {
      pol := Policy(if minSize < 0 then 0 else minSize, Compressible);
      this.contentType := contentType;
      encodingHeader, lengthHeader, log, buf := false, true, [], [];
      status, committed, plain, gz := 200, false, false, false;
    }

    method SetContentType(ct: string)
      modifies this`contentType
      ensures View() == old(View()).(contentType := ct)
    {
      contentType := ct;
    }

    method WriteHeader(code: int)
      modifies this`status
      ensures View() == old(View()).(status := code)
    {
      status := code;
    }

    method Write(p: Bytes)
      modifies this
      ensures View() == OnWrite(old(View()), pol, p)
    {
      if committed {
        if plain {
          log := log + [Raw(p)];
        } else if gz {
          log := log + [Deflated(p)];
        }
        return;
      }
      buf := buf + p;
      if |buf| < pol.minSize {
        return;
      }
      Commit();
    }

    method Commit()
      modifies this
      ensures View() == OnCommit(old(View()), pol)
    {
      committed := true;
      if pol.compressible(contentType) && |buf| >= pol.minSize {
        encodingHeader := true;
        lengthHeader := false;
        log := log + [Status(status)];
        gz := true;
        log := log + [Deflated(buf)];
        buf := [];
        return;
      }
      plain := true;
      log := log + [Status(status)];
      log := log + [Raw(buf)];
      buf := [];
    }

    method Close()
      modifies this
      ensures View() == OnClose(old(View()))
    {
      if !committed {
        plain := true;
        log := log + [Status(status)];
        log := log + [Raw(buf)];
        return;
      }
      if gz {
        log := log + [Trailer];
      }
    }
  }

  /* ------------------------------------------------------------------ */
  /* Whole responses                                                     */
  /* ------------------------------------------------------------------ */

  /** What a handler may do with the writer before it is closed. */
  datatype Call = SetType(ct: string) | WriteHeader(code: int) | Write(data: Bytes)

  function Fresh(ct: string): State {
    State(ct, false, true, [], [], 200, false, false, false)
  }

  function Step(s: State, pol: Policy, c: Call): State {
    match c
    case SetType(ct) => s.(contentType := ct)
    case WriteHeader(code) => s.(status := code)
    case Write(p) => OnWrite(s, pol, p)
  }

  function Play(ct: string, pol: Policy, calls: seq<Call>): State {
    if calls == [] then Fresh(ct)
    else Step(Play(ct, pol, calls[..|calls|-1]), pol, calls[|calls|-1])
  }

  /** Everything the handler wrote. */
  function Body(calls: seq<Call>): Bytes {
    if calls == [] then []
    else Body(calls[..|calls|-1]) + if calls[|calls|-1].Write? then calls[|calls|-1].data else []
  }

  function LastStatus(calls: seq<Call>): int {
    if calls == [] then 200
    else if calls[|calls|-1].WriteHeader? then calls[|calls|-1].code
    else LastStatus(calls[..|calls|-1])
  }

  function LastType(ct: string, calls: seq<Call>): string {
    if calls == [] then ct
    else if calls[|calls|-1].SetType? then calls[|calls|-1].ct
    else LastType(ct, calls[..|calls|-1])
  }

  /** The calls up to and including the write that reaches the threshold, or
      all of them if none does. */
  function UpToCommit(pol: Policy, calls: seq<Call>): seq<Call> {
    if calls == [] then []
    else
      var before := UpToCommit(pol, calls[..|calls|-1]);
      if Reached(pol, calls[..|calls|-1]) then before else calls
  }

  /** Some write brought the total to the threshold. */
  predicate Reached(pol: Policy, calls: seq<Call>) {
    calls != [] &&
    (Reached(pol, calls[..|calls|-1]) || (calls[|calls|-1].Write? && |Body(calls)| >= pol.minSize))
  }

  /** The body a client reconstructs: raw bytes, or the decoding of a compressed
      stream. */
  function Received(log: seq<Op>): Bytes {
    if log == [] then []
    else Received(log[..|log|-1]) + if log[|log|-1].Raw? || log[|log|-1].Deflated? then log[|log|-1].data else []
  }

  /** One status line first, then nothing but data of the announced kind. */
  predicate Sent(log: seq<Op>, code: int, zipped: bool, body: Bytes) {
    && log != [] && log[0] == Status(code)
    && (forall i :: 1 <= i < |log| ==> if zipped then log[i].Deflated? else log[i].Raw?)
    && Received(log) == body
  }

  function Chunk(zipped: bool, data: Bytes): Op {
    if zipped then Deflated(data) else Raw(data)
  }

  lemma SentFirst(code: int, zipped: bool, data: Bytes)
    ensures Sent([] + [Status(code), Chunk(zipped, data)], code, zipped, data)
  {
    var log := [Status(code), Chunk(zipped, data)];
    assert [] + log == log && log[..1] == [Status(code)] && [Status(code)][..0] == [];
    assert Received([Status(code)]) == [];
    assert Received(log) == data;
  }

  lemma SentMore(log: seq<Op>, code: int, zipped: bool, body: Bytes, data: Bytes)
    requires Sent(log, code, zipped, body)
    ensures Sent(log + [Chunk(zipped, data)], code, zipped, body + data)
  {
    assert (log + [Chunk(zipped, data)])[..|log|] == log;
  }

  lemma ReceivedTrailer(log: seq<Op>)
    ensures Received(log + [Trailer]) == Received(log)
  {
    assert (log + [Trailer])[..|log|] == log;
  }

  /** The writer's state, in closed form of the calls so far. */
  predicate Tracks(s: State, ct: string, pol: Policy, calls: seq<Call>) {
    && s.committed == Reached(pol, calls)
    && s.contentType == LastType(ct, calls) && s.status == LastStatus(calls)
    && s.gz == s.encodingHeader == !s.lengthHeader
    && if s.committed then
         var at := UpToCommit(pol, calls);
         && s.plain == !s.gz && s.gz == pol.compressible(LastType(ct, at))
         && Sent(s.log, LastStatus(at), s.gz, Body(calls))
       else
         UpToCommit(pol, calls) == calls && s.log == [] && s.buf == Body(calls) && !s.gz && !s.plain
  }

  lemma StepTracks(s: State, ct: string, pol: Policy, calls: seq<Call>)
    requires calls != [] && Tracks(s, ct, pol, calls[..|calls|-1])
    ensures Tracks(Step(s, pol, calls[|calls|-1]), ct, pol, calls)
  {
    var c := calls[|calls|-1];
    var before := calls[..|calls|-1];
    if c.Write? {
      if s.committed {
        SentMore(s.log, LastStatus(UpToCommit(pol, before)), s.gz, Body(before), c.data);
      } else {
        SentFirst(s.status, pol.compressible(s.contentType), s.buf + c.data);
        assert Reached(pol, calls) <==> |s.buf + c.data| >= pol.minSize;
        assert UpToCommit(pol, calls) == calls;
      }
    }
  }

  lemma {:induction false} AlwaysTracks(ct: string, pol: Policy, calls: seq<Call>)
    ensures Tracks(Play(ct, pol, calls), ct, pol, calls)
  {
    if calls != [] {
      AlwaysTracks(ct, pol, calls[..|calls|-1]);
      StepTracks(Play(ct, pol, calls[..|calls|-1]), ct, pol, calls);
    }
  }

  /** A closed response is transparent, whatever the calls were: exactly one
      status line, sent first, with the last status set before the commit; the
      received body is the concatenation of the writes; and the body is wholly
      plain, or wholly one compressed stream ended by its trailer, as announced
      by the headers. */
  lemma ClosedResponse(ct: string, pol: Policy, calls: seq<Call>)
    ensures var r := OnClose(Play(ct, pol, calls));
            var at := UpToCommit(pol, calls);
            && r.log != [] && Received(r.log) == Body(calls)
            && (r.encodingHeader <==> Reached(pol, calls) && pol.compressible(LastType(ct, at)))
            && (r.encodingHeader <==> !r.lengthHeader)
            && var data := if r.encodingHeader then r.log[..|r.log|-1] else r.log;
            && Sent(data, LastStatus(at), r.encodingHeader, Body(calls))
            && (r.encodingHeader ==> r.log[|r.log|-1] == Trailer)
  {
    AlwaysTracks(ct, pol, calls);
    var s := Play(ct, pol, calls);
    if s.committed {
      ReceivedTrailer(s.log);
      assert (s.log + [Trailer])[..|s.log|] == s.log;
    } else {
      SentFirst(s.status, false, s.buf);
    }
  }

  predicate FixedType(calls: seq<Call>) {
    forall i :: 0 <= i < |calls| ==> !calls[i].SetType?
  }

  lemma {:induction false} ReachedByLength(pol: Policy, calls: seq<Call>)
    ensures Body(calls) != [] ==> (Reached(pol, calls) <==> |Body(calls)| >= pol.minSize)
    ensures Reached(pol, calls) ==> |Body(calls)| >= pol.minSize
  {
    if calls != [] {
      ReachedByLength(pol, calls[..|calls|-1]);
    }
  }

  lemma {:induction false} FixedLastType(ct: string, pol: Policy, calls: seq<Call>)
    requires FixedType(calls)
    ensures LastType(ct, calls) == ct && LastType(ct, UpToCommit(pol, calls)) == ct
  {
    if calls != [] {
      FixedLastType(ct, pol, calls[..|calls|-1]);
    }
  }

  /** For a non-empty body and a content type that is not changed on the way,
      the choice to compress depends on total length and content type only. */
  lemma ChunkingIsIrrelevant(ct: string, pol: Policy, calls: seq<Call>)
    requires FixedType(calls) && Body(calls) != []
    ensures OnClose(Play(ct, pol, calls)).encodingHeader <==>
              pol.compressible(ct) && |Body(calls)| >= pol.minSize
  {
    ClosedResponse(ct, pol, calls);
    ReachedByLength(pol, calls);
    FixedLastType(ct, pol, calls);
  }

  /** Non-emptiness is needed: at threshold zero an empty write commits, no
      write at all does not. */
  lemma EmptyBodyDependsOnWrite(ct: string, pol: Policy)
    requires pol.minSize == 0 && pol.compressible(ct)
    ensures OnClose(Play(ct, pol, [Write([])])).encodingHeader
    ensures !OnClose(Play(ct, pol, [])).encodingHeader
  {
    assert [Write([])][..0] == [];
  }
}
