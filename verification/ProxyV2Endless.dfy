/** When the version 2 parser never returns (asio_server/proxy_protocol.cpp:938-1091): its two loops
    move on by a length that is cut to 16 bits. */
module ProxyV2Endless {
  import opened MachineTypes
  import opened Wrappers
  import opened ProxyInfo
  import opened ProxyV2Parse

  // ---------- the inner loop ----------

  /** The offset of the inner loop after `k` turns, if it has not been left or stopped. */
  ghost function OffsetAt(buf: seq<uint8>, base: nat, len: uint16, k: nat): Option<uint16> {
    if k == 0 then
      Some(0)
    else
      match OffsetAt(buf, base, len, k - 1)
      case None => None
      case Some(o) =>
        if o >= len then None
        else
          match SubTlvStep(buf, base, o, CLEARED)
          case SubStop(_) => None
          case SubNext(_, o', _) => Some(o')
  }

  ghost predicate TurnsForever(buf: seq<uint8>, base: nat, len: uint16) {
    forall k: nat :: OffsetAt(buf, base, len, k).Some? && OffsetAt(buf, base, len, k).value < len
  }

  ghost predicate Visited(buf: seq<uint8>, base: nat, len: uint16, k: nat, o: nat) {
    exists m: nat :: m < k && OffsetAt(buf, base, len, m).Some? && OffsetAt(buf, base, len, m).value == o
  }

  lemma VisitedNext(buf: seq<uint8>, base: nat, len: uint16, k: nat, offset: uint16, o: nat)
    requires OffsetAt(buf, base, len, k) == Some(offset)
    ensures Visited(buf, base, len, k + 1, o) <==> Visited(buf, base, len, k, o) || o == offset as nat
  {
    hide OffsetAt;
  }

  /** Where a turn leads depends on the buffer and the offset alone. */
  lemma StepIgnoresInfo(buf: seq<uint8>, base: nat, offset: uint16, info: Info, other: Info)
    ensures match SubTlvStep(buf, base, offset, info)
            case SubStop(outcome) => SubTlvStep(buf, base, offset, other) == SubStop(outcome)
            case SubNext(_, o, v) =>
              var s := SubTlvStep(buf, base, offset, other);
              s.SubNext? && s.offset == o && s.isVersion == v
  {
    hide U16At, U16;
  }

  /** At an offset it has been at before the loop goes round for ever. */
  lemma {:induction false} Periodic(buf: seq<uint8>, base: nat, len: uint16, i: nat, j: nat, k: nat)
    requires i < j && OffsetAt(buf, base, len, i) == OffsetAt(buf, base, len, j)
    requires forall m: nat :: m < j ==> OffsetAt(buf, base, len, m).Some? && OffsetAt(buf, base, len, m).value < len
    ensures OffsetAt(buf, base, len, k).Some? && OffsetAt(buf, base, len, k).value < len
    ensures k >= j ==> OffsetAt(buf, base, len, k) == OffsetAt(buf, base, len, k - (j - i))
  {
    hide SubTlvStep;
    if k > j {
      Periodic(buf, base, len, i, j, k - 1);
      Periodic(buf, base, len, i, j, k - (j - i));
    }
  }

  /** The inner loop ends with `Endless` exactly when the source turns in it for ever. */
  lemma {:induction false} InnerLoopEndlessExactly(buf: seq<uint8>, base: nat, len: uint16, info: Info, found: bool,
                                                   offset: uint16, k: nat, seen: set<nat>)
    requires OffsetAt(buf, base, len, k) == Some(offset)
    requires forall m: nat :: m < k ==> OffsetAt(buf, base, len, m).Some? && OffsetAt(buf, base, len, m).value < len
    requires forall o :: o in seen <==> Visited(buf, base, len, k, o)
    ensures SslLoop(buf, base, offset, len, info, found, seen).0 == Some(Endless) <==> TurnsForever(buf, base, len)
    decreases Unseen(seen)
  {
    hide SubTlvStep;
    if offset >= len {
      assert !TurnsForever(buf, base, len);
    } else if offset in seen {
      assert Visited(buf, base, len, k, offset);
      var m: nat :| m < k && OffsetAt(buf, base, len, m) == Some(offset);
      forall n: nat
        ensures OffsetAt(buf, base, len, n).Some? && OffsetAt(buf, base, len, n).value < len
      {
        Periodic(buf, base, len, m, k, n);
      }
    } else {
      StepIgnoresInfo(buf, base, offset, info, CLEARED);
      match SubTlvStep(buf, base, offset, info) {
        case SubStop(outcome) =>
          StopIsNotEndless(buf, base, offset, info);
          assert OffsetAt(buf, base, len, k + 1) == None;
        case SubNext(info', offset', isVersion) =>
          UnseenShrinks(seen, offset);
          assert OffsetAt(buf, base, len, k + 1) == Some(offset');
          var seen' := seen + {offset as nat};
          forall o
            ensures o in seen' <==> Visited(buf, base, len, k + 1, o)
          {
            VisitedNext(buf, base, len, k, offset, o);
          }
          InnerLoopEndlessExactly(buf, base, len, info', found || isVersion, offset', k + 1, seen');
      }
    }
  }

  /** The same from the start. */
  lemma SslEndlessExactly(buf: seq<uint8>, base: nat, len: uint16, info: Info)
    ensures SslLoop(buf, base, 0, len, info, false, {}).0 == Some(Endless) <==> TurnsForever(buf, base, len)
  {
    InnerLoopEndlessExactly(buf, base, len, info, false, 0, 0, {});
  }

  lemma StopIsNotEndless(buf: seq<uint8>, base: nat, offset: uint16, info: Info)
    ensures SubTlvStep(buf, base, offset, info).SubStop? ==> SubTlvStep(buf, base, offset, info).outcome != Endless
  {
  }

  // ---------- the outer loop ----------

  /** The state of the outer loop at the start of a turn. */
  datatype Place = Place(buf: seq<uint8>, pos: nat, rem: uint16, info: Info) {
    predicate Inside() {
      pos + rem <= |buf|
    }

    function Turn(): Step
      requires Inside() && rem > 3
    {
      TlvStep(buf, pos, rem, info)
    }
  }

  function Behind(p: Place, s: Step): (q: Place)
    requires p.Inside() && p.rem > 3 && p.Turn() == s && s.Next?
    ensures q.Inside()
  {
    StepStaysInside(p.buf, p.pos, p.rem, p.info);
    Place(s.buf, p.pos + s.offset, p.rem - s.offset, s.info)
  }

  /** Where the loop is after `k` turns, if it has not been left. */
  ghost function PlaceAt(p: Place, k: nat): (q: Option<Place>)
    requires p.Inside()
    ensures q.Some? ==> q.value.Inside()
    decreases k
  {
    if k == 0 then Some(p)
    else if p.rem <= 3 || p.Turn().Stop? then None
    else PlaceAt(Behind(p, p.Turn()), k - 1)
  }

  ghost predicate LoopsForever(p: Place)
    requires p.Inside()
  {
    forall k: nat :: PlaceAt(p, k).Some?
  }

  /** After `k` turns the loop enters an inner loop that never ends. */
  ghost predicate HangsAt(p: Place, k: nat)
    requires p.Inside()
  {
    var q := PlaceAt(p, k);
    q.Some? && q.value.rem > 3 && q.value.Turn().Stop? && q.value.Turn().outcome == Endless
  }

  lemma {:induction false} SslLoopIgnoresInfo(buf: seq<uint8>, base: nat, offset: uint16, len: uint16, info: Info,
        other: Info,
                                              found: bool, seen: set<nat>)
    requires info.ssl == other.ssl
    ensures SslLoop(buf, base, offset, len, info, found, seen).0 == SslLoop(buf, base, offset, len, other, found,
          seen).0
    decreases Unseen(seen)
  {
    hide SubTlvStep;
    if offset < len && offset !in seen {
      StepIgnoresInfo(buf, base, offset, info, other);
      StepKeepsSsl(buf, base, offset, info);
      StepKeepsSsl(buf, base, offset, other);
      var s, t := SubTlvStep(buf, base, offset, info), SubTlvStep(buf, base, offset, other);
      if s.SubNext? {
        UnseenShrinks(seen, offset);
        SslLoopIgnoresInfo(buf, base, s.offset, len, s.info, t.info, found || s.isVersion, seen + {offset as nat});
      }
    }
  }

  lemma StepKeepsSsl(buf: seq<uint8>, base: nat, offset: uint16, info: Info)
    ensures var s := SubTlvStep(buf, base, offset, info);
            s.SubNext? ==> s.info.ssl == info.ssl
  {
    hide U16At, U16;
  }

  /** A turn that moves on by 0 bytes leaves the buffer alone and happens again whatever the array holds. */
  lemma StandsStillAgain(buf: seq<uint8>, pos: nat, rem: uint16, info: Info, other: Info)
    requires rem > 3 && pos + rem <= |buf|
    requires TlvStep(buf, pos, rem, info).Next? && TlvStep(buf, pos, rem, info).offset == 0
    ensures TlvStep(buf, pos, rem, info).buf == buf
    ensures TlvStep(buf, pos, rem, other).Next? && TlvStep(buf, pos, rem, other).offset == 0
  {
    hide U16At, SslLoop;
    var n, at := U16At(buf, pos + 1), pos + 3;
    if at + 5 <= |buf| {
      var flags := FlagsOf(buf[at], buf[at + 1..at + 5]);
      SslLoopIgnoresInfo(buf, at + 5, 0, U16(n as int - 5), info.(ssl := flags), other.(ssl := flags), false, {});
    }
  }

  lemma {:induction false} StandsStill(p: Place, k: nat)
    requires p.Inside() && p.rem > 3 && p.Turn().Next? && p.Turn().offset == 0
    ensures PlaceAt(p, k).Some?
    decreases k
  {
    hide TlvStep;
    if k > 0 {
      StandsStillAgain(p.buf, p.pos, p.rem, p.info, p.Turn().info);
      StandsStill(Behind(p, p.Turn()), k - 1);
    }
  }

  /** The parser's loop ends with `Endless` exactly when the source never gets out of it: it turns for
      ever, or it enters an inner loop that does. */
  lemma {:induction false} WalkEndlessExactly(p: Place)
    requires p.Inside()
    ensures Walk(p.buf, p.pos, p.rem, p.info).outcome == Endless <==> LoopsForever(p) || exists k: nat :: HangsAt(p, k)
    decreases p.rem
  {
    hide TlvStep;
    if p.rem <= 3 || p.Turn().Stop? {
      assert PlaceAt(p, 1) == None;
      assert HangsAt(p, 0) <==> p.rem > 3 && p.Turn().outcome == Endless;
    } else {
      var q := Behind(p, p.Turn());
      if p.Turn().offset == 0 {
        forall k: nat
          ensures PlaceAt(p, k).Some?
        {
          StandsStill(p, k);
        }
      } else {
        WalkEndlessExactly(q);
        OneTurnLater(p);
      }
    }
  }

  lemma OneTurnLater(p: Place)
    requires p.Inside() && p.rem > 3 && p.Turn().Next?
    ensures var q := Behind(p, p.Turn());
            && (LoopsForever(p) <==> LoopsForever(q))
            && ((exists k: nat :: HangsAt(p, k)) <==> (exists k: nat :: HangsAt(q, k)))
  {
    hide TlvStep;
    var q := Behind(p, p.Turn());
    if LoopsForever(p) {
      forall k: nat
        ensures PlaceAt(q, k).Some?
      {
        assert PlaceAt(p, k + 1).Some?;
      }
    }
    if LoopsForever(q) {
      forall k: nat
        ensures PlaceAt(p, k).Some?
      {
        assert k > 0 ==> PlaceAt(q, k - 1).Some?;
      }
    }
    if k: nat :| HangsAt(p, k) {
      assert HangsAt(q, k - 1);
    }
    if k: nat :| HangsAt(q, k) {
      assert HangsAt(p, k + 1);
    }
  }
}
