/** Incremental server-sent-event framing: bytes arrive in arbitrary chunks, complete frames are cut
    off the buffer, and each frame's payload goes to a JSON decoder. */
module SseFraming {
  import opened Options
  import opened Search
  import opened Bytes

  const LFLF: seq<byte> := [LF, LF]
  const CRLFCRLF: seq<byte> := [CR, LF, CR, LF]

  /** The first complete frame and what follows its separator. Line feeds are looked for first. */
  function NextFrame(buffer: seq<byte>): (r: Option<(seq<byte>, seq<byte>)>)
    ensures r.Some? ==> |r.value.1| < |buffer|
  {
    match Find(buffer, LFLF)
    case Some(p) => Some((buffer[..p], buffer[p + 2..]))
    case None =>
      match Find(buffer, CRLFCRLF)
      case Some(p) => Some((buffer[..p], buffer[p + 4..]))
      case None => None
  }

  datatype Drained = Drained(frames: seq<seq<byte>>, rest: seq<byte>)

  /** All complete frames of a buffer, and the residue. */
  function Drain(buffer: seq<byte>): Drained
    decreases |buffer|
  {
    match NextFrame(buffer)
    case None => Drained([], buffer)
    case Some((frame, rest)) =>
      var d := Drain(rest);
      Drained([frame] + d.frames, d.rest)
  }

  /** What draining gives when `a` is drained before `b` arrives. */
  function DrainInTwo(a: seq<byte>, b: seq<byte>): Drained {
    var first := Drain(a);
    var second := Drain(first.rest + b);
    Drained(first.frames + second.frames, second.rest)
  }

  /** A blank line in the CRLF style with one in the LF style somewhere after it. */
  ghost predicate Mixed(s: seq<byte>) {
    exists p: nat, q: nat :: p < q && OccursAt(s, CRLFCRLF, p) && OccursAt(s, LFLF, q)
  }

  lemma {:induction false} DrainLeavesNoFrame(s: seq<byte>)
    ensures NextFrame(Drain(s).rest) == None
    decreases |s|
  {
    if NextFrame(s).Some? { DrainLeavesNoFrame(NextFrame(s).value.1); }
  }

  lemma SuffixNotMixed(s: seq<byte>, k: nat)
    requires !Mixed(s) && k <= |s|
    ensures !Mixed(s[k..])
  {
    if Mixed(s[k..]) {
      var p: nat, q: nat :| p < q && OccursAt(s[k..], CRLFCRLF, p) && OccursAt(s[k..], LFLF, q);
      OccursInSuffix(s, k, CRLFCRLF, p);
      OccursInSuffix(s, k, LFLF, q);
    }
  }

  /** A frame that is complete stays the next frame whatever arrives after it. */
  lemma NextFrameStable(a: seq<byte>, b: seq<byte>)
    requires !Mixed(a + b) && NextFrame(a).Some?
    ensures NextFrame(a + b) == Some((NextFrame(a).value.0, NextFrame(a).value.1 + b))
  {
    if Find(a, LFLF).Some? {
      var p := Find(a, LFLF).value;
      FindStable(a, b, LFLF);
      assert (a + b)[..p] == a[..p] && (a + b)[p + 2..] == a[p + 2..] + b;
    } else {
      var p := Find(a, CRLFCRLF).value;
      FindStable(a, b, CRLFCRLF);
      OccursInPrefix(a, b, CRLFCRLF, p);
      assert (a + b)[..p] == a[..p] && (a + b)[p + 4..] == a[p + 4..] + b;
      if Find(a + b, LFLF).Some? {
        var q := Find(a + b, LFLF).value;
        if q + 2 <= |a| { OccursInPrefix(a, b, LFLF, q); }
      }
    }
  }

  lemma DrainStep(s: seq<byte>, frame: seq<byte>, rest: seq<byte>)
    requires NextFrame(s) == Some((frame, rest))
    ensures Drain(s) == Drained([frame] + Drain(rest).frames, Drain(rest).rest)
  {
  }

  lemma DrainNone(s: seq<byte>)
    requires NextFrame(s).None?
    ensures Drain(s) == Drained([], s)
  {
  }

  /** Draining early loses nothing and adds nothing, unless the separators are mixed. */
  lemma {:induction false} DrainCutAnywhere(a: seq<byte>, b: seq<byte>)
    requires !Mixed(a + b)
    ensures DrainInTwo(a, b) == Drain(a + b)
    decreases |a|
  {
    hide NextFrame, Drain, Mixed;
    if NextFrame(a).Some? {
      var (frame, rest) := NextFrame(a).value;
      NextFrameStable(a, b);
      FrameRestIsSuffix(a);
      var k := |a| - |rest|;
      assert (a + b)[k..] == rest + b;
      SuffixNotMixed(a + b, k);
      DrainCutAnywhere(rest, b);
      DrainStep(a, frame, rest);
      DrainStep(a + b, frame, rest + b);
      assert [frame] + Drain(rest).frames + Drain(Drain(rest).rest + b).frames
          == [frame] + (Drain(rest).frames + Drain(Drain(rest).rest + b).frames);
    } else {
      DrainNone(a);
      assert [] + Drain(a + b).frames == Drain(a + b).frames;
    }
  }

  lemma FrameRestIsSuffix(a: seq<byte>)
    requires NextFrame(a).Some?
    ensures var rest := NextFrame(a).value.1; |rest| <= |a| && a[|a| - |rest|..] == rest
  {
  }

  /** Cutting right after the first CRLF blank line that an LF one follows changes the frames: the
      early drain ends a frame there, the late one carries it on. */
  lemma {:induction false} MixedCutDiffers(s: seq<byte>, p: nat, q: nat)
    requires p < q && OccursAt(s, CRLFCRLF, p) && OccursAt(s, LFLF, q)
    requires forall j :: 0 <= j < p ==> !OccursAt(s, CRLFCRLF, j)
    ensures DrainInTwo(s[..p + 4], s[p + 4..]).frames != Drain(s).frames
    decreases |s|
  {
    hide Drain, NextFrame;
    var a, b := s[..p + 4], s[p + 4..];
    assert a + b == s;
    var f := Find(s, LFLF).value;
    SeparatorsApart(s, p, f);
    if f < p {
      var t, p', q' := s[f + 2..], p - (f + 2), q - (f + 2);
      FirstLfFrame(s, a, b, f);
      OccursInSuffix(s, f + 2, CRLFCRLF, p');
      SeparatorsApart(s, p, q);
      OccursInSuffix(s, f + 2, LFLF, q');
      forall j | 0 <= j < p' ensures !OccursAt(t, CRLFCRLF, j) {
        OccursInSuffix(s, f + 2, CRLFCRLF, j);
      }
      MixedCutDiffers(t, p', q');
      DrainStep(s, s[..f], t);
      DrainStep(a, s[..f], t[..p' + 4]);
      assert t[p' + 4..] == b;
      HeadsEqualTailsDiffer(s[..f], Drain(t[..p' + 4]).frames, Drain(Drain(t[..p' + 4]).rest + b).frames,
                            Drain(t).frames);
    } else {
      EarlyFrame(a, b, p);
      LateFrame(s, f);
      DrainStep(a, a[..p], []);
      DrainStep(s, s[..f], s[f + 2..]);
      assert DrainInTwo(a, b).frames[0] == a[..p];
      assert Drain(s).frames[0] == s[..f];
    }
  }

  /** The events `a` and `b`, the first ended by a CRLF blank line and the second by an LF one: cut between
      them they are two frames, and in one piece they are one. */
  lemma MixedStream()
    ensures var a, b: seq<byte> := [97] + CRLFCRLF, [98] + LFLF;
            && DrainInTwo(a, b) == Drained([[97], [98]], [])
            && Drain(a + b) == Drained([[97] + CRLFCRLF + [98]], [])
  {
    hide Find, Drain;
    var a, b: seq<byte> := [97] + CRLFCRLF, [98] + LFLF;
    var none: seq<byte> := [];
    CrlfAlone(a);
    LfAt(b, 1);
    LfAt(a + b, 6);
    assert a[..1] == [97] && a[5..] == none && b[..1] == [98] && b[3..] == none;
    assert (a + b)[..6] == [97] + CRLFCRLF + [98] && (a + b)[8..] == none;
    NothingDrains();
    DrainStep(a, [97], none);
    DrainStep(b, [98], none);
    DrainStep(a + b, [97] + CRLFCRLF + [98], none);
    assert none + b == b;
  }

  lemma LfPair(s: seq<byte>, j: nat)
    requires OccursAt(s, LFLF, j)
    ensures j + 1 < |s| && s[j] == LF && s[j + 1] == LF
  {
    assert s[j..j + 2][0] == LF && s[j..j + 2][1] == LF;
  }

  lemma LfAt(s: seq<byte>, i: nat)
    requires i + 1 < |s| && s[i] == LF && s[i + 1] == LF
    requires forall j :: 0 <= j < i ==> s[j] != LF || s[j + 1] != LF
    ensures Find(s, LFLF) == Some(i)
  {
    forall j | 0 <= j < i ensures !OccursAt(s, LFLF, j) {
      if OccursAt(s, LFLF, j) { LfPair(s, j); }
    }
    assert s[i..i + 2] == LFLF;
    FindIs(s, LFLF, i);
  }

  lemma CrlfAlone(a: seq<byte>)
    requires a == [97] + CRLFCRLF
    ensures Find(a, LFLF).None? && Find(a, CRLFCRLF) == Some(1)
  {
    forall j: nat ensures !OccursAt(a, LFLF, j) {
      if OccursAt(a, LFLF, j) { LfPair(a, j); }
    }
    assert a[1..5] == CRLFCRLF && a[0..4][0] == 97;
    FindIs(a, CRLFCRLF, 1);
  }

  /** Blank lines of the two styles overlap in one byte at most. */
  lemma SeparatorsApart(s: seq<byte>, p: nat, f: nat)
    requires OccursAt(s, CRLFCRLF, p) && OccursAt(s, LFLF, f)
    ensures f + 2 <= p || p + 3 <= f
  {
    assert s[p..p + 4] == CRLFCRLF && s[f..f + 2] == LFLF;
    assert s[p] == 13 && s[p + 1] == 10 && s[p + 2] == 13 && s[f] == 10 && s[f + 1] == 10;
  }

  lemma LateFrame(s: seq<byte>, f: nat)
    requires Find(s, LFLF) == Some(f)
    ensures f + 2 <= |s| && NextFrame(s) == Some((s[..f], s[f + 2..]))
  {
  }

  lemma FirstLfFrame(s: seq<byte>, a: seq<byte>, b: seq<byte>, f: nat)
    requires s == a + b && f + 2 <= |a| && Find(s, LFLF) == Some(f)
    ensures NextFrame(s) == Some((s[..f], s[f + 2..]))
    ensures NextFrame(a) == Some((s[..f], s[f + 2..|a|])) && s[f + 2..|a|] == s[f + 2..][..|a| - (f + 2)]
  {
    OccursInPrefix(a, b, LFLF, f);
    FindInPrefix(a, b, LFLF, f);
    assert a[..f] == s[..f] && a[f + 2..] == s[f + 2..|a|];
  }

  lemma HeadsEqualTailsDiffer(h: seq<byte>, x: seq<seq<byte>>, y: seq<seq<byte>>, z: seq<seq<byte>>)
    requires x + y != z
    ensures [h] + x + y != [h] + z
  {
    assert ([h] + x + y)[1..] == x + y && ([h] + z)[1..] == z;
  }

  lemma FindInPrefix(a: seq<byte>, b: seq<byte>, pat: seq<byte>, i: nat)
    requires Find(a + b, pat) == Some(i) && OccursAt(a, pat, i)
    ensures Find(a, pat) == Some(i)
  {
    forall j | 0 <= j < i ensures !OccursAt(a, pat, j) {
      OccursInPrefix(a, b, pat, j);
    }
    FindIs(a, pat, i);
  }

  lemma EarlyFrame(a: seq<byte>, b: seq<byte>, p: nat)
    requires |a| == p + 4 && OccursAt(a + b, CRLFCRLF, p)
    requires forall j :: 0 <= j < p ==> !OccursAt(a + b, CRLFCRLF, j)
    requires forall j :: 0 <= j < p + 3 ==> !OccursAt(a + b, LFLF, j)
    ensures NextFrame(a) == Some((a[..p], []))
  {
    forall j: nat ensures !OccursAt(a, LFLF, j) {
      if j + 2 <= |a| { OccursInPrefix(a, b, LFLF, j); }
    }
    assert Find(a, LFLF).None?;
    forall j | 0 <= j < p ensures !OccursAt(a, CRLFCRLF, j) {
      OccursInPrefix(a, b, CRLFCRLF, j);
    }
    OccursInPrefix(a, b, CRLFCRLF, p);
    FindIs(a, CRLFCRLF, p);
    assert a[p + 4..] == [];
  }

  /** A stream gives the same frames and residue however it is cut exactly when no CRLF blank line in
      it is followed by an LF one. */
  lemma ChunkingIsHarmlessExactly(s: seq<byte>)
    ensures (forall i :: 0 <= i <= |s| ==> DrainInTwo(s[..i], s[i..]) == Drain(s)) <==> !Mixed(s)
  {
    hide Drain, NextFrame;
    if Mixed(s) {
      var p: nat, q: nat :| p < q && OccursAt(s, CRLFCRLF, p) && OccursAt(s, LFLF, q);
      var first := Find(s, CRLFCRLF).value;
      MixedCutDiffers(s, first, q);
      assert DrainInTwo(s[..first + 4], s[first + 4..]) != Drain(s);
    } else {
      forall i | 0 <= i <= |s| ensures DrainInTwo(s[..i], s[i..]) == Drain(s) {
        assert s[..i] + s[i..] == s;
        DrainCutAnywhere(s[..i], s[i..]);
      }
    }
  }

  /** Draining after every chunk, starting with `buffer` left over. */
  function DrainChunks(buffer: seq<byte>, chunks: seq<seq<byte>>): Drained
    decreases |chunks|
  {
    if chunks == [] then Drained([], buffer)
    else
      var first := Drain(buffer + chunks[0]);
      var later := DrainChunks(first.rest, chunks[1..]);
      Drained(first.frames + later.frames, later.rest)
  }

  lemma {:induction false} DrainRestIsSuffix(s: seq<byte>)
    ensures |Drain(s).rest| <= |s| && s[|s| - |Drain(s).rest|..] == Drain(s).rest
    decreases |s|
  {
    if NextFrame(s).Some? {
      FrameRestIsSuffix(s);
      DrainRestIsSuffix(NextFrame(s).value.1);
    }
  }

  /** The residue can take the place of what was drained. */
  lemma ResidueCarriesOn(now: seq<byte>, later: seq<byte>)
    requires !Mixed(now + later)
    ensures NextFrame(Drain(now).rest).None? && !Mixed(Drain(now).rest + later)
    ensures Drain(now + later) == DrainInTwo(now, later)
  {
    hide NextFrame, Mixed, Drain;
    DrainCutAnywhere(now, later);
    DrainLeavesNoFrame(now);
    DrainRestIsSuffix(now);
    var k := |now| - |Drain(now).rest|;
    assert (now + later)[k..] == Drain(now).rest + later;
    SuffixNotMixed(now + later, k);
  }

  /** However a stream without mixed separators is chunked, the frames and the final residue are those
      of the whole stream. */
  lemma {:induction false} DrainAnyChunking(buffer: seq<byte>, chunks: seq<seq<byte>>)
    requires NextFrame(buffer).None? && !Mixed(buffer + Flatten(chunks))
    ensures DrainChunks(buffer, chunks) == Drain(buffer + Flatten(chunks))
    decreases |chunks|
  {
    if chunks == [] {
      assert buffer + [] == buffer;
    } else {
      hide NextFrame, Mixed, Drain;
      var now, later := buffer + chunks[0], Flatten(chunks[1..]);
      assert buffer + Flatten(chunks) == now + later;
      ResidueCarriesOn(now, later);
      DrainAnyChunking(Drain(now).rest, chunks[1..]);
    }
  }

  /** A stream can be cut right after any of its frames. */
  lemma {:induction false} CutAfterFrames(s: seq<byte>, k: nat) returns (i: nat)
    requires k <= |Drain(s).frames|
    ensures i <= |s| && Drain(s[..i]) == Drained(Drain(s).frames[..k], [])
    decreases k
  {
    hide NextFrame, Drain;
    if k == 0 {
      i := 0;
      NothingDrains();
      assert s[..0] == [] && Drain(s).frames[..0] == [];
    } else {
      NoFrames(s);
      var (frame, rest) := NextFrame(s).value;
      DrainStep(s, frame, rest);
      FrameRestIsSuffix(s);
      var j := CutAfterFrames(rest, k - 1);
      i := |s| - |rest| + j;
      FrameInPrefix(s, i);
      assert s[..i][|s| - |rest|..] == rest[..j];
      DrainStep(s[..i], frame, rest[..j]);
      assert ([frame] + Drain(rest).frames)[..k] == [frame] + Drain(rest).frames[..k - 1];
    }
  }

  lemma NothingDrains()
    ensures Drain([]) == Drained([], [])
  {
  }

  lemma NoFrames(s: seq<byte>)
    ensures NextFrame(s).None? ==> Drain(s).frames == []
  {
  }

  /** The next frame of a stream is the next frame of any prefix that holds it with its separator. */
  lemma FrameInPrefix(s: seq<byte>, n: nat)
    requires NextFrame(s).Some? && |s| - |NextFrame(s).value.1| <= n <= |s|
    ensures var (frame, rest) := NextFrame(s).value;
            NextFrame(s[..n]) == Some((frame, s[..n][|s| - |rest|..]))
  {
    hide Find;
    assert s == s[..n] + s[n..];
    if Find(s, LFLF).Some? {
      var p := Find(s, LFLF).value;
      OccursInPrefix(s[..n], s[n..], LFLF, p);
      FindInPrefix(s[..n], s[n..], LFLF, p);
      assert s[..n][..p] == s[..p];
    } else {
      var p := Find(s, CRLFCRLF).value;
      OccursInPrefix(s[..n], s[n..], CRLFCRLF, p);
      FindInPrefix(s[..n], s[n..], CRLFCRLF, p);
      if Find(s[..n], LFLF).Some? {
        OccursInPrefix(s[..n], s[n..], LFLF, Find(s[..n], LFLF).value);
      }
      assert s[..n][..p] == s[..p];
    }
  }
}
