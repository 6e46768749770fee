/** Reading a file of self-delimiting frames, for any decoder of one frame. */
module Framing {
  import opened Prelude
  import opened Bytes

  /** Reads one item from the front: the item and how many bytes it took. */
  type Decoder<R> = seq<Byte> -> Option<(R, nat)>

  function ReadAll<R>(next: Decoder<R>, file: seq<Byte>): seq<R>
    decreases |file|
  {
    match next(file)
    case None => []
    case Some((r, n)) => if 0 < n <= |file| then [r] + ReadAll(next, file[n..]) else []
  }

  lemma ReadAllFrom<R>(next: Decoder<R>, file: seq<Byte>, at: nat, got: Option<(R, nat)>)
    requires at <= |file| && got == next(file[at..])
    requires got.Some? ==> 0 < got.value.1 <= |file| - at
    ensures got.None? ==> ReadAll(next, file[at..]) == []
    ensures got.Some? ==> ReadAll(next, file[at..]) == [got.value.0] + ReadAll(next, file[at + got.value.1..])
  {
    if got.Some? {
      var n := got.value.1;
      assert file[at..][n..] == file[at + n..];
    }
  }

  function Concat(frames: seq<seq<Byte>>): seq<Byte> {
    if frames == [] then [] else frames[0] + Concat(frames[1..])
  }

  lemma {:induction false} ConcatLast(frames: seq<seq<Byte>>, last: seq<Byte>)
    ensures Concat(frames + [last]) == Concat(frames) + last
  {
    if frames == [] {
      assert Concat([last]) == last + Concat([]);
    } else {
      assert (frames + [last])[1..] == frames[1..] + [last];
      ConcatLast(frames[1..], last);
    }
  }

  /** The frame decodes to `r` whatever follows it, and not at all when cut short. */
  ghost predicate FramedAs<R>(next: Decoder<R>, frame: seq<Byte>, r: R) {
    && frame != []
    && (forall rest: seq<Byte> :: next(frame + rest) == Some((r, |frame|)))
    && (forall cut :: 0 <= cut < |frame| ==> next(frame[..cut]) == None)
  }

  ghost predicate Framed<R>(next: Decoder<R>, frames: seq<seq<Byte>>, rs: seq<R>) {
    |frames| == |rs| && forall i :: 0 <= i < |rs| ==> FramedAs(next, frames[i], rs[i])
  }

  /** How many leading frames fit wholly before the cut. */
  function Fit(frames: seq<seq<Byte>>, cut: nat): (k: nat)
    ensures k <= |frames|
  {
    if frames == [] || cut < |frames[0]| then 0
    else 1 + Fit(frames[1..], cut - |frames[0]|)
  }

  /** `Fit` is the greatest number of frames that are together no longer than the cut. */
  lemma {:induction false} FitIsGreatest(frames: seq<seq<Byte>>, cut: nat, k: nat)
    requires k <= |frames|
    ensures k <= Fit(frames, cut) <==> |Concat(frames[..k])| <= cut
  {
    if k > 0 {
      assert frames[..k][1..] == frames[1..][..k - 1];
      if |frames[0]| <= cut {
        FitIsGreatest(frames[1..], cut - |frames[0]|, k - 1);
      }
    }
  }

  /** Whatever the cut, reading yields exactly the items whose frames fit before it. */
  lemma {:induction false} ReadTorn<R>(next: Decoder<R>, frames: seq<seq<Byte>>, rs: seq<R>, cut: nat)
    requires Framed(next, frames, rs) && next([]) == None
    requires cut <= |Concat(frames)|
    ensures ReadAll(next, Concat(frames)[..cut]) == rs[..Fit(frames, cut)]
  {
    if frames != [] {
      var head := frames[0];
      var tail := Concat(frames[1..]);
      assert FramedAs(next, head, rs[0]);
      if cut < |head| {
        assert (head + tail)[..cut] == head[..cut];
      } else {
        var rest := tail[..cut - |head|];
        assert (head + tail)[..cut] == head + rest;
        assert (head + rest)[|head|..] == rest;
        ReadTorn(next, frames[1..], rs[1..], cut - |head|);
      }
    }
  }
}
