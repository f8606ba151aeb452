/**
 * Server-sent-event framing of the generation stream: every non-empty chunk
 * the backend produces is written to the client as one `data: <chunk>`
 * frame ended by a blank line, in arrival order; empty chunks are skipped.
 */
module Sse {
  import opened Wrappers
  import opened Http

  const DataPrefix: string := "data: "
  const FrameEnd: string := "\n\n"

  /** One event frame carrying `chunk`. */
  function Frame(chunk: string): string
  {
    DataPrefix + chunk + FrameEnd
  }

  /** What the per-chunk callback writes for one chunk. */
  function Emitted(chunk: string): string
  {
    if chunk == "" then "" else Frame(chunk)
  }

  /** The response body after the callback has seen `chunks`, built in the
      order the chunks arrive: each new chunk adds to the end. */
  function Body(chunks: seq<string>): string
  {
    if chunks == [] then "" else Body(chunks[..|chunks| - 1]) + Emitted(chunks[|chunks| - 1])
  }

  /** The non-empty chunks, in order. */
  function NonEmpty(chunks: seq<string>): seq<string>
  {
    if chunks == [] then []
    else (if chunks[0] == "" then [] else [chunks[0]]) + NonEmpty(chunks[1..])
  }

  /** The frames of `chunks`, one per chunk, concatenated in order. */
  function Frames(chunks: seq<string>): string
  {
    if chunks == [] then "" else Frame(chunks[0]) + Frames(chunks[1..])
  }

  lemma {:induction false} NonEmptyAppend(a: seq<string>, b: seq<string>)
    ensures NonEmpty(a + b) == NonEmpty(a) + NonEmpty(b)
  {
    if a == [] {
      assert a + b == b;
    } else {
      assert (a + b)[1..] == a[1..] + b;
      NonEmptyAppend(a[1..], b);
    }
  }

  lemma {:induction false} FramesAppend(a: seq<string>, b: seq<string>)
    ensures Frames(a + b) == Frames(a) + Frames(b)
  {
    if a == [] {
      assert a + b == b;
    } else {
      assert (a + b)[1..] == a[1..] + b;
      FramesAppend(a[1..], b);
    }
  }

  /** The body is exactly the frames of the non-empty chunks, in arrival
      order: nothing is dropped, merged, reordered or added. */
  lemma {:induction false} BodyIsFramesOfNonEmpty(chunks: seq<string>)
    ensures Body(chunks) == Frames(NonEmpty(chunks))
  {
    if chunks != [] {
      var n := |chunks| - 1;
      var init, last := chunks[..n], chunks[n];
      assert chunks == init + [last];
      BodyIsFramesOfNonEmpty(init);
      NonEmptyAppend(init, [last]);
      assert NonEmpty([last]) == (if last == "" then [] else [last]);
      FramesAppend(NonEmpty(init), NonEmpty([last]));
      assert Frames(NonEmpty([last])) == Emitted(last);
    }
  }

  /** Streaming is compositional: the body for a stream is the body for its
      first part followed by the body for the rest, so a stream cut short
      (client gone, backend failed) leaves a prefix of the full body. */
  lemma {:induction false} BodyAppend(a: seq<string>, b: seq<string>)
    ensures Body(a + b) == Body(a) + Body(b)
  {
    BodyIsFramesOfNonEmpty(a);
    BodyIsFramesOfNonEmpty(b);
    BodyIsFramesOfNonEmpty(a + b);
    NonEmptyAppend(a, b);
    FramesAppend(NonEmpty(a), NonEmpty(b));
  }

  /** Empty chunks contribute nothing. */
  lemma BodySkipsEmpty(chunks: seq<string>)
    ensures Body(chunks) == Body(NonEmpty(chunks))
  {
    BodyIsFramesOfNonEmpty(chunks);
    NonEmptyIdempotent(chunks);
    BodyIsFramesOfNonEmpty(NonEmpty(chunks));
  }

  lemma {:induction false} NonEmptyIdempotent(chunks: seq<string>)
    ensures NonEmpty(NonEmpty(chunks)) == NonEmpty(chunks)
  {
    if chunks != [] {
      var head := if chunks[0] == "" then [] else [chunks[0]];
      NonEmptyIdempotent(chunks[1..]);
      NonEmptyAppend(head, NonEmpty(chunks[1..]));
      if chunks[0] != "" {
        assert NonEmpty(head) == head by {
          assert head[1..] == [];
        }
      }
    }
  }

  /** Position of the first newline of `s`, or |s| when there is none. */
  function IndexOfNewline(s: string): (k: nat)
    ensures k <= |s|
    ensures forall i :: 0 <= i < k ==> s[i] != '\n'
    ensures k < |s| ==> s[k] == '\n'
  {
    if s == [] || s[0] == '\n' then 0 else 1 + IndexOfNewline(s[1..])
  }

  /** A client-side reading of an event stream whose data carry no newline:
      a run of `data: <payload>` lines, each ended by a blank line. */
  function Parse(body: string): Option<seq<string>>
    decreases |body|
  {
    if body == "" then Some([])
    else if !(DataPrefix <= body) then None
    else
      var rest := body[|DataPrefix|..];
      var k := IndexOfNewline(rest);
      if k + |FrameEnd| <= |rest| && rest[k..k + |FrameEnd|] == FrameEnd then
        match Parse(rest[k + |FrameEnd|..])
        case None => None
        case Some(cs) => Some([rest[..k]] + cs)
      else None
  }

  /** No chunk contains a newline. */
  predicate SingleLine(chunks: seq<string>)
  {
    forall i :: 0 <= i < |chunks| ==> '\n' !in chunks[i]
  }

  lemma {:induction false} ParseFrames(chunks: seq<string>)
    requires SingleLine(chunks)
    ensures Parse(Frames(chunks)) == Some(chunks)
  {
    if chunks != [] {
      var c, tail := chunks[0], Frames(chunks[1..]);
      var body := Frames(chunks);
      assert body == DataPrefix + (c + FrameEnd + tail);
      assert DataPrefix <= body;
      var rest := body[|DataPrefix|..];
      assert rest == c + FrameEnd + tail;
      assert rest[|c|] == '\n';
      assert IndexOfNewline(rest) == |c|;
      assert rest[|c|..|c| + |FrameEnd|] == FrameEnd;
      assert rest[|c| + |FrameEnd|..] == tail;
      assert rest[..|c|] == c;
      assert SingleLine(chunks[1..]) by {
        forall i | 0 <= i < |chunks[1..]| ensures '\n' !in chunks[1..][i] {
          assert chunks[1..][i] == chunks[i + 1];
        }
      }
      ParseFrames(chunks[1..]);
      assert chunks == [c] + chunks[1..];
    }
  }

  /** A client reading the stream gets back exactly the non-empty chunks, in
      order, as long as no chunk holds a newline. */
  lemma ParseBody(chunks: seq<string>)
    requires SingleLine(chunks)
    ensures Parse(Body(chunks)) == Some(NonEmpty(chunks))
  {
    BodyIsFramesOfNonEmpty(chunks);
    NonEmptySingleLine(chunks);
    ParseFrames(NonEmpty(chunks));
  }

  lemma {:induction false} NonEmptySingleLine(chunks: seq<string>)
    requires SingleLine(chunks)
    ensures SingleLine(NonEmpty(chunks))
    ensures forall c :: c in NonEmpty(chunks) ==> c in chunks && c != ""
  {
    if chunks != [] {
      assert SingleLine(chunks[1..]) by {
        forall i | 0 <= i < |chunks[1..]| ensures '\n' !in chunks[1..][i] {
          assert chunks[1..][i] == chunks[i + 1];
        }
      }
      NonEmptySingleLine(chunks[1..]);
    }
  }

  /** With newlines allowed, different streams can give the same body: a
      chunk that itself holds a frame boundary reads back as two chunks. */
  lemma NewlinesBreakFraming()
    ensures Body(["a\n\ndata: b"]) == Body(["a", "b"])
  {
    assert ["a", "b"][..1] == ["a"];
  }

  /** The per-chunk callback: writes the chunk's frame unless it is empty,
      and never asks the backend to stop. */
  method OnChunk(w: ResponseWriter, chunk: string) returns (abort: Option<string>)
    modifies w
    ensures abort == None
    ensures w.body == old(w.body) + Emitted(chunk)
    ensures w.status == old(w.status) && w.headers == old(w.headers)
  {
    if chunk == "" {
      return None;
    }
    w.Write(DataPrefix + chunk + FrameEnd);
    return None;
  }

  /** The streaming generation call seen from the handler: the backend hands
      the chunks to the callback one at a time and stops early only if the
      callback asks it to. */
  method Stream(w: ResponseWriter, chunks: seq<string>) returns (err: Option<string>)
    modifies w
    ensures err == None
    ensures w.body == old(w.body) + Body(chunks)
    ensures w.status == old(w.status) && w.headers == old(w.headers)
  {
    for i := 0 to |chunks|
      invariant w.body == old(w.body) + Body(chunks[..i])
      invariant w.status == old(w.status) && w.headers == old(w.headers)
    {
      var abort := OnChunk(w, chunks[i]);
      if abort.Some? {
        return abort;
      }
      assert chunks[..i + 1][..i] == chunks[..i];
      assert Body(chunks[..i + 1]) == Body(chunks[..i]) + Emitted(chunks[i]);
      assert w.body == old(w.body) + (Body(chunks[..i]) + Emitted(chunks[i])) by {
        assert w.body == (old(w.body) + Body(chunks[..i])) + Emitted(chunks[i]);
      }
    }
    assert chunks[..|chunks|] == chunks;
    return None;
  }
}
