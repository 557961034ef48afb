/** Event flag groups of rt-thread/src/ipc.c: a 32-bit set, and threads waiting for bits of it. */
module EventFlags {
  import opened RtDef

  const FLAG_AND: bv8 := 1
  const FLAG_OR: bv8 := 2
  const FLAG_CLEAR: bv8 := 4

  /** A suspended thread with its event_set and event_info. */
  datatype Waiter = Waiter(t: Tid, want: bv32, opt: bv8)

  /** A resumed thread with the bits left in its event_set, and whether it cleared them. */
  datatype Woken = Woken(t: Tid, got: bv32, cleared: bool)

  datatype State = State(bits: bv32, waiting: seq<Waiter>)

  datatype Sweep = Sweep(bits: bv32, waiting: seq<Waiter>, woken: seq<Woken>)

  datatype Event =
    | Send(bits_: bv32)
    | Recv(t: Tid, want: bv32, opt: bv8, block: bool, at: nat)
    | Timeout(t: Tid)
    | Reset

  predicate Has(opt: bv8, flag: bv8) {
    opt & flag != 0
  }

  predicate GoodOption(opt: bv8) {
    Has(opt, FLAG_AND) || Has(opt, FLAG_OR)
  }

  /** The request is met by bits: all of it, or some of it. AND wins when both flags are given. */
  predicate Met(want: bv32, opt: bv8, bits: bv32) {
    if Has(opt, FLAG_AND) then want & bits == want
    else Has(opt, FLAG_OR) && want & bits != 0
  }

  /** What rt_event_send leaves in the thread's event_set. */
  function Received(want: bv32, opt: bv8, bits: bv32): bv32 {
    if Has(opt, FLAG_AND) then want else want & bits
  }

  function With(bits: bv32, more: bv32): bv32 {
    bits | more
  }

  function Cleared(bits: bv32, got: bv32, opt: bv8): bv32 {
    if Has(opt, FLAG_CLEAR) then bits & !got else bits
  }

  /** The loop of rt_event_send, from the first waiting thread on. */
  function SweepFrom(bits: bv32, ws: seq<Waiter>): Sweep
    decreases |ws|
  {
    if ws == [] then Sweep(bits, [], [])
    else
      var w := ws[0];
      if Met(w.want, w.opt, bits) then
        var got := Received(w.want, w.opt, bits);
        var r := SweepFrom(Cleared(bits, got, w.opt), ws[1..]);
        r.(woken := [Woken(w.t, got, Has(w.opt, FLAG_CLEAR))] + r.woken)
      else
        var r := SweepFrom(bits, ws[1..]);
        r.(waiting := [w] + r.waiting)
  }

  predicate Enabled(s: State, e: Event) {
    match e
    case Recv(t, want, opt, _, at) => GoodOption(opt) && at <= |s.waiting| && forall w :: w in s.waiting ==> w.t != t
    case _ => true
  }

  function WithoutThread(ws: seq<Waiter>, t: Tid): seq<Waiter> {
    if ws == [] then [] else (if ws[0].t == t then [] else [ws[0]]) + WithoutThread(ws[1..], t)
  }

  function Apply(s: State, e: Event): State
    requires Enabled(s, e)
  {
    match e
    case Send(bits_) =>
      if bits_ == 0 then s
      else var r := SweepFrom(With(s.bits, bits_), s.waiting); State(r.bits, r.waiting)
    case Recv(t, want, opt, block, at) =>
      if want == 0 then s
      else if Met(want, opt, s.bits) then s.(bits := Cleared(s.bits, want, opt))
      else if block then s.(waiting := s.waiting[..at] + [Waiter(t, want, opt)] + s.waiting[at..])
      else s
    case Timeout(t) => s.(waiting := WithoutThread(s.waiting, t))
    case Reset => State(0, [])
  }

  /** Nobody waits for what is already there, and everybody who waits asked for something. */
  ghost predicate Inv(s: State) {
    forall w :: w in s.waiting ==> GoodOption(w.opt) && w.want != 0 && !Met(w.want, w.opt, s.bits)
  }

  ghost predicate IsRun(trace: seq<State>, events: seq<Event>) {
    && |trace| == |events| + 1
    && forall k :: 0 <= k < |events| ==> Enabled(trace[k], events[k]) && trace[k + 1] == Apply(trace[k], events[k])
  }

  // ---------------------------------------------------------------- bits

  ghost predicate Within(a: bv32, b: bv32) {
    a & b == a
  }

  ghost predicate Apart(a: bv32, b: bv32) {
    a & b == 0
  }

  lemma WithinTransitive(a: bv32, b: bv32, c: bv32)
    requires Within(a, b) && Within(b, c)
    ensures Within(a, c)
  {
    assert a & c == (a & b) & c == a & (b & c);
  }

  /** A request that a smaller set meets, a larger set meets. */
  lemma MetIsMonotone(want: bv32, opt: bv8, less: bv32, more: bv32)
    requires Met(want, opt, less) && Within(less, more)
    ensures Met(want, opt, more)
  {
    assert want & less == (want & less) & more;
  }

  lemma ClearedIsWithin(bits: bv32, got: bv32, opt: bv8)
    ensures Within(Cleared(bits, got, opt), bits)
    ensures Has(opt, FLAG_CLEAR) ==> Apart(Cleared(bits, got, opt), got)
  {
  }

  // ---------------------------------------------------------------- flag by flag

  predicate Bit(x: bv32, k: bv5) {
    (x >> k) & 1 == 1
  }

  /** The numbers of the flags in a set. */
  ghost function Flags(x: bv32): iset<bv5> {
    iset k: bv5 | Bit(x, k)
  }

  /** What the two options promise, flag by flag: AND wants every flag, OR is content with one. */
  ghost predicate Satisfied(want: bv32, opt: bv8, there: iset<bv5>) {
    if Has(opt, FLAG_AND) then forall k :: k in Flags(want) ==> k in there
    else exists k :: k in Flags(want) && k in there
  }

  /** The flags a satisfied thread gets: all it wants, or those of them that are there. */
  ghost function Share(want: bv32, opt: bv8, there: iset<bv5>): iset<bv5> {
    if Has(opt, FLAG_AND) then Flags(want) else Flags(want) * there
  }

  lemma BitOfAnd(a: bv32, b: bv32, k: bv5)
    ensures Bit(a & b, k) <==> Bit(a, k) && Bit(b, k)
  {
  }

  lemma BitOfOr(a: bv32, b: bv32, k: bv5)
    ensures Bit(a | b, k) <==> Bit(a, k) || Bit(b, k)
  {
  }

  lemma BitOfAndNot(a: bv32, b: bv32, k: bv5)
    ensures Bit(a & !b, k) <==> Bit(a, k) && !Bit(b, k)
  {
  }

  lemma NoBits(x: bv32)
    requires forall k :: !Bit(x, k)
    ensures x == 0
  {
    assert !Bit(x, 0) && !Bit(x, 1) && !Bit(x, 2) && !Bit(x, 3) && !Bit(x, 4) && !Bit(x, 5) && !Bit(x, 6);
    assert !Bit(x, 7) && !Bit(x, 8) && !Bit(x, 9) && !Bit(x, 10) && !Bit(x, 11) && !Bit(x, 12) && !Bit(x, 13);
    assert !Bit(x, 14) && !Bit(x, 15) && !Bit(x, 16) && !Bit(x, 17) && !Bit(x, 18) && !Bit(x, 19) && !Bit(x, 20);
    assert !Bit(x, 21) && !Bit(x, 22) && !Bit(x, 23) && !Bit(x, 24) && !Bit(x, 25) && !Bit(x, 26) && !Bit(x, 27);
    assert !Bit(x, 28) && !Bit(x, 29) && !Bit(x, 30) && !Bit(x, 31);
  }

  lemma BitOfXor(a: bv32, b: bv32, k: bv5)
    ensures Bit(a ^ b, k) <==> Bit(a, k) != Bit(b, k)
  {
  }

  lemma XorOfEqual(a: bv32, b: bv32)
    ensures a ^ b == 0 ==> a == b
  {
  }

  lemma EqualBits(a: bv32, b: bv32)
    requires forall k :: Bit(a, k) == Bit(b, k)
    ensures a == b
  {
    hide Bit;
    var x := a ^ b;
    forall k
      ensures !Bit(x, k)
    {
      BitOfXor(a, b, k);
    }
    NoBits(x);
    XorOfEqual(a, b);
  }

  lemma FlagsOfAnd(a: bv32, b: bv32)
    ensures Flags(a & b) == Flags(a) * Flags(b)
  {
    hide Bit;
    forall k: bv5
      ensures Bit(a & b, k) <==> Bit(a, k) && Bit(b, k)
    {
      BitOfAnd(a, b, k);
    }
  }

  lemma FlagsOfAndNot(a: bv32, b: bv32)
    ensures Flags(a & !b) == Flags(a) - Flags(b)
  {
    hide Bit;
    forall k: bv5
      ensures Bit(a & !b, k) <==> Bit(a, k) && !Bit(b, k)
    {
      BitOfAndNot(a, b, k);
    }
  }

  /** Sending adds flags to the set and takes none out. */
  lemma WithIsUnion(bits: bv32, more: bv32)
    ensures Flags(With(bits, more)) == Flags(bits) + Flags(more)
  {
    hide Bit;
    forall k: bv5
      ensures Bit(With(bits, more), k) <==> Bit(bits, k) || Bit(more, k)
    {
      BitOfOr(bits, more, k);
    }
  }

  lemma NoBitInZero(k: bv5)
    ensures !Bit(0, k)
  {
  }

  lemma WithinIsSubset(a: bv32, b: bv32)
    ensures Within(a, b) <==> forall k :: k in Flags(a) ==> k in Flags(b)
    ensures Within(a, b) <==> Flags(a) <= Flags(b)
  {
    hide Bit;
    FlagsOfAnd(a, b);
    if forall k :: k in Flags(a) ==> k in Flags(b) {
      forall k: bv5
        ensures Bit(a & b, k) == Bit(a, k)
      {
        BitOfAnd(a, b, k);
        assert k in Flags(a) <==> Bit(a, k);
        assert k in Flags(b) <==> Bit(b, k);
      }
      EqualBits(a & b, a);
    }
  }

  lemma ApartIsDisjoint(a: bv32, b: bv32)
    ensures !Apart(a, b) <==> exists k :: k in Flags(a) && k in Flags(b)
  {
    hide Bit;
    FlagsOfAnd(a, b);
    if a & b == 0 {
      forall k: bv5
        ensures !(k in Flags(a) && k in Flags(b))
      {
        NoBitInZero(k);
        assert k in Flags(a & b) <==> Bit(0, k);
      }
    } else if !exists k :: k in Flags(a) && k in Flags(b) {
      var x := a & b;
      forall k
        ensures !Bit(x, k)
      {
        assert k in Flags(x) <==> Bit(x, k);
        assert k in Flags(a) * Flags(b) <==> k in Flags(a) && k in Flags(b);
      }
      NoBits(x);
    }
  }

  /** The test of the code is what the options promise. */
  lemma MetIsSatisfied(want: bv32, opt: bv8, bits: bv32)
    requires GoodOption(opt)
    ensures Met(want, opt, bits) <==> Satisfied(want, opt, Flags(bits))
  {
    hide Bit, Has;
    WithinIsSubset(want, bits);
    ApartIsDisjoint(want, bits);
  }

  lemma ReceivedIsShare(want: bv32, opt: bv8, bits: bv32)
    ensures Flags(Received(want, opt, bits)) == Share(want, opt, Flags(bits))
  {
    hide Bit, Flags, Has;
    FlagsOfAnd(want, bits);
  }

  lemma ClearedIsWithout(bits: bv32, got: bv32, opt: bv8)
    ensures Flags(Cleared(bits, got, opt)) == if Has(opt, FLAG_CLEAR) then Flags(bits) - Flags(got) else Flags(bits)
  {
    hide Bit, Flags, Has;
    FlagsOfAndNot(bits, got);
  }

  // ---------------------------------------------------------------- one sweep

  /** The set only shrinks during the wake loop, so no thread passed over is left satisfiable. */
  lemma {:induction false} SweepLeavesNoneMet(bits: bv32, ws: seq<Waiter>)
    ensures var r := SweepFrom(bits, ws);
            && Within(r.bits, bits)
            && (forall w :: w in r.waiting ==> w in ws && !Met(w.want, w.opt, r.bits))
    decreases |ws|
  {
    if ws != [] {
      var w := ws[0];
      var r := SweepFrom(bits, ws);
      if Met(w.want, w.opt, bits) {
        var got := Received(w.want, w.opt, bits);
        ClearedIsWithin(bits, got, w.opt);
        SweepLeavesNoneMet(Cleared(bits, got, w.opt), ws[1..]);
        WithinTransitive(r.bits, Cleared(bits, got, w.opt), bits);
      } else {
        SweepLeavesNoneMet(bits, ws[1..]);
        if Met(w.want, w.opt, r.bits) {
          MetIsMonotone(w.want, w.opt, r.bits, bits);
        }
      }
    }
  }

  /** Every thread either stays or is woken. */
  lemma {:induction false} SweepSplits(bits: bv32, ws: seq<Waiter>)
    ensures var r := SweepFrom(bits, ws);
            && |r.waiting| + |r.woken| == |ws|
            && (forall w :: w in ws ==> w in r.waiting || exists k :: 0 <= k < |r.woken| && r.woken[k].t == w.t)
    decreases |ws|
  {
    hide Met, Received, Cleared, Has;
    if ws != [] {
      var w, rest, r := ws[0], ws[1..], SweepFrom(bits, ws);
      var b := if Met(w.want, w.opt, bits) then Cleared(bits, Received(w.want, w.opt, bits), w.opt) else bits;
      SweepSplits(b, rest);
      var r' := SweepFrom(b, rest);
      assert ws == [w] + rest;
      forall v | v in ws
        ensures v in r.waiting || exists k :: 0 <= k < |r.woken| && r.woken[k].t == v.t
      {
        if v in rest {
          if v !in r'.waiting {
            var k :| 0 <= k < |r'.woken| && r'.woken[k].t == v.t;
            assert r.woken[if Met(w.want, w.opt, bits) then k + 1 else k].t == v.t;
          }
        } else {
          assert v == w;
          assert Met(w.want, w.opt, bits) ==> r.woken[0].t == w.t;
        }
      }
    }
  }

  /** What was delivered comes from bits; cleared bits reach no later thread and are not left over. */
  ghost predicate Consumed(bits: bv32, left: bv32, woken: seq<Woken>) {
    && (forall k :: 0 <= k < |woken| ==> Within(woken[k].got, bits))
    && (forall k :: 0 <= k < |woken| && woken[k].cleared ==> Apart(woken[k].got, left))
    && (forall i, j :: 0 <= i < j < |woken| && woken[i].cleared ==> Apart(woken[i].got, woken[j].got))
  }

  lemma ConsumedCons(bits: bv32, b: bv32, left: bv32, w: Woken, rest: seq<Woken>)
    requires Consumed(b, left, rest) && Within(b, bits) && Within(left, b) && Within(w.got, bits)
    requires w.cleared ==> Apart(b, w.got)
    ensures Consumed(bits, left, [w] + rest)
  {
    hide Within, Apart;
    forall k | 0 <= k < |rest|
      ensures Within(rest[k].got, bits) && (w.cleared ==> Apart(w.got, rest[k].got))
    {
      WithinTransitive(rest[k].got, b, bits);
      if w.cleared {
        ApartWithin(w.got, b, rest[k].got);
      }
    }
    if w.cleared {
      ApartWithin(w.got, b, left);
    }
  }

  /** A bit consumed by one thread is not delivered to a later one, nor left in the set. */
  lemma {:induction false} ConsumedOnce(bits: bv32, ws: seq<Waiter>)
    ensures var r := SweepFrom(bits, ws); Consumed(bits, r.bits, r.woken)
    decreases |ws|
  {
    hide Met, Received, Cleared, Has, Within, Apart, Consumed;
    if ws == [] {
      ConsumedNothing(bits);
      return;
    }
    var w := ws[0];
    if Met(w.want, w.opt, bits) {
      var got := Received(w.want, w.opt, bits);
      var b := Cleared(bits, got, w.opt);
      ReceivedIsWithin(w.want, w.opt, bits);
      ClearedIsWithin(bits, got, w.opt);
      ConsumedOnce(b, ws[1..]);
      SweepLeavesNoneMet(b, ws[1..]);
      var r' := SweepFrom(b, ws[1..]);
      ConsumedCons(bits, b, r'.bits, Woken(w.t, got, Has(w.opt, FLAG_CLEAR)), r'.woken);
    } else {
      ConsumedOnce(bits, ws[1..]);
    }
  }

  lemma ConsumedNothing(bits: bv32)
    ensures Consumed(bits, bits, [])
  {
  }

  lemma ApartWithin(a: bv32, b: bv32, c: bv32)
    requires Apart(b, a) && Within(c, b)
    ensures Apart(a, c)
  {
    assert a & c == a & (c & b) == (b & a) & c;
  }

  lemma ReceivedIsWithin(want: bv32, opt: bv8, bits: bv32)
    requires Met(want, opt, bits)
    ensures Within(Received(want, opt, bits), bits)
  {
  }

  /** Both ways to receive, at once or by being woken, deliver the same bits and leave the same set. */
  lemma BlockedAndImmediateAgree(want: bv32, opt: bv8, bits: bv32)
    requires Met(want, opt, bits)
    ensures Received(want, opt, bits) == bits & want
    ensures Cleared(bits, Received(want, opt, bits), opt) == Cleared(bits, want, opt)
  {
  }

  /** Place i has the first request that the flags there satisfy. */
  ghost predicate FirstSatisfied(ws: seq<Waiter>, there: iset<bv5>, i: nat) {
    && i < |ws| && Satisfied(ws[i].want, ws[i].opt, there)
    && forall j :: 0 <= j < i ==> !Satisfied(ws[j].want, ws[j].opt, there)
  }

  ghost predicate NoneSatisfied(ws: seq<Waiter>, there: iset<bv5>) {
    forall w :: w in ws ==> !Satisfied(w.want, w.opt, there)
  }

  ghost predicate GoodOptions(ws: seq<Waiter>) {
    forall w :: w in ws ==> GoodOption(w.opt)
  }

  /** w was resumed with the flags it asked for, and cleared them if it asked for that. */
  ghost predicate WokenWith(r: Woken, w: Waiter, there: iset<bv5>) {
    && r.t == w.t && Flags(r.got) == Share(w.want, w.opt, there)
    && (r.cleared <==> Has(w.opt, FLAG_CLEAR))
  }

  /** What the flags there become when w has received its share. */
  ghost function LeftBy(w: Waiter, there: iset<bv5>): iset<bv5> {
    if Has(w.opt, FLAG_CLEAR) then there - Share(w.want, w.opt, there) else there
  }

  lemma {:induction false} SweepPasses(bits: bv32, ws: seq<Waiter>, i: nat)
    requires i <= |ws| && forall j :: 0 <= j < i ==> !Met(ws[j].want, ws[j].opt, bits)
    ensures var r := SweepFrom(bits, ws[i..]); SweepFrom(bits, ws) == r.(waiting := ws[..i] + r.waiting)
    decreases i
  {
    hide Met, Received, Cleared, Has;
    var r := SweepFrom(bits, ws[i..]);
    if i == 0 {
      assert ws[0..] == ws && ws[..0] + r.waiting == r.waiting;
    } else {
      var rest := ws[1..];
      assert rest[i - 1..] == ws[i..] && [ws[0]] + (rest[..i - 1] + r.waiting) == ws[..i] + r.waiting;
      assert forall j :: 0 <= j < |rest| ==> rest[j] == ws[j + 1];
      SweepPasses(bits, rest, i - 1);
    }
  }

  /** The first satisfied waiter is woken first, with its share, and the loop goes on behind it with what it leaves. */
  lemma SweepWakesFirst(bits: bv32, ws: seq<Waiter>, i: nat) returns (b: bv32)
    requires GoodOptions(ws) && FirstSatisfied(ws, Flags(bits), i)
    ensures Flags(b) == LeftBy(ws[i], Flags(bits))
    ensures var all, r := SweepFrom(bits, ws), SweepFrom(b, ws[i + 1..]);
            && all.woken != [] && WokenWith(all.woken[0], ws[i], Flags(bits)) && all.woken[1..] == r.woken
            && all.waiting == ws[..i] + r.waiting && all.bits == r.bits
  {
    hide Met, Received, Cleared, Has, Satisfied, Share, Flags, GoodOption;
    forall j | 0 <= j <= i
      ensures Met(ws[j].want, ws[j].opt, bits) <==> j == i
    {
      assert ws[j] in ws;
      MetIsSatisfied(ws[j].want, ws[j].opt, bits);
    }
    SweepPasses(bits, ws, i);
    var w := ws[i];
    assert ws[i..][0] == w && ws[i..][1..] == ws[i + 1..];
    var got := Received(w.want, w.opt, bits);
    ReceivedIsShare(w.want, w.opt, bits);
    ClearedIsWithout(bits, got, w.opt);
    b := Cleared(bits, got, w.opt);
  }

  lemma SweepWakesNone(bits: bv32, ws: seq<Waiter>)
    requires GoodOptions(ws) && NoneSatisfied(ws, Flags(bits))
    ensures SweepFrom(bits, ws) == Sweep(bits, ws, [])
  {
    hide Met, Received, Cleared, Has, Satisfied, Flags, GoodOption;
    forall j | 0 <= j < |ws|
      ensures !Met(ws[j].want, ws[j].opt, bits)
    {
      assert ws[j] in ws;
      MetIsSatisfied(ws[j].want, ws[j].opt, bits);
    }
    SweepPasses(bits, ws, |ws|);
    assert ws[|ws|..] == [] && ws[..|ws|] + [] == ws;
  }

  /** Flag k was consumed by a thread of the list. */
  ghost predicate Took(woken: seq<Woken>, k: bv5) {
    exists i :: 0 <= i < |woken| && woken[i].cleared && k in Flags(woken[i].got)
  }

  /** A flag goes out of the set only when a thread that clears receives it. */
  lemma {:induction false} SweepLosesNothing(bits: bv32, ws: seq<Waiter>, k: bv5)
    requires k in Flags(bits)
    ensures var r := SweepFrom(bits, ws); k in Flags(r.bits) || Took(r.woken, k)
    decreases |ws|
  {
    hide Met, Received, Cleared, Has, Flags;
    if ws != [] {
      var w := ws[0];
      if Met(w.want, w.opt, bits) {
        var got := Received(w.want, w.opt, bits);
        var b := Cleared(bits, got, w.opt);
        var one, r' := Woken(w.t, got, Has(w.opt, FLAG_CLEAR)), SweepFrom(b, ws[1..]);
        var woken := [one] + r'.woken;
        ClearedIsWithout(bits, got, w.opt);
        if k in Flags(b) {
          SweepLosesNothing(b, ws[1..], k);
          if Took(r'.woken, k) {
            var i :| 0 <= i < |r'.woken| && r'.woken[i].cleared && k in Flags(r'.woken[i].got);
            assert woken[i + 1] == r'.woken[i];
          }
        } else {
          assert woken[0] == one;
        }
      } else {
        SweepLosesNothing(bits, ws[1..], k);
      }
    }
  }

  // ---------------------------------------------------------------- runs

  lemma {:induction false} WithoutThreadIs(ws: seq<Waiter>, t: Tid)
    ensures forall w :: w in WithoutThread(ws, t) <==> w in ws && w.t != t
  {
    if ws != [] {
      WithoutThreadIs(ws[1..], t);
      assert ws == [ws[0]] + ws[1..];
    }
  }

  lemma RecvKeeps(s: State, t: Tid, want: bv32, opt: bv8, block: bool, at: nat)
    requires Inv(s) && Enabled(s, Recv(t, want, opt, block, at))
    ensures Inv(Apply(s, Recv(t, want, opt, block, at)))
  {
    hide Met, Has, Cleared;
    var s' := Apply(s, Recv(t, want, opt, block, at));
    if want != 0 && Met(want, opt, s.bits) {
      ClearedIsWithin(s.bits, want, opt);
      forall w | w in s'.waiting
        ensures !Met(w.want, w.opt, s'.bits)
      {
        if Met(w.want, w.opt, s'.bits) {
          MetIsMonotone(w.want, w.opt, s'.bits, s.bits);
        }
      }
    } else if want != 0 && block {
      assert s.waiting == s.waiting[..at] + s.waiting[at..];
    }
  }

  lemma StepKeeps(s: State, e: Event)
    requires Inv(s) && Enabled(s, e)
    ensures Inv(Apply(s, e))
  {
    match e
    case Send(bits_) =>
      SweepLeavesNoneMet(With(s.bits, bits_), s.waiting);
      SweepSplits(With(s.bits, bits_), s.waiting);
    case Recv(t, want, opt, block, at) => RecvKeeps(s, t, want, opt, block, at);
    case Timeout(t) => WithoutThreadIs(s.waiting, t);
    case Reset =>
  }

  /** After any run of sends, receives, timeouts and resets no waiting thread's request is met. */
  lemma {:induction false} NoWaiterLeftMet(trace: seq<State>, events: seq<Event>)
    requires IsRun(trace, events) && trace[0] == State(0, [])
    ensures Inv(trace[|events|])
  {
    if events != [] {
      var m := |events| - 1;
      NoWaiterLeftMet(trace[..m + 1], events[..m]);
      StepKeeps(trace[m], events[m]);
    }
  }

  /** Flag by flag, after any such run: a thread that waits for all its flags lacks one of them, and of those a
      thread waits for one of, not one is there. */
  lemma WaitersLack(trace: seq<State>, events: seq<Event>)
    requires IsRun(trace, events) && trace[0] == State(0, [])
    ensures forall w :: w in trace[|events|].waiting && Has(w.opt, FLAG_AND) ==>
              exists k :: k in Flags(w.want) && k !in Flags(trace[|events|].bits)
    ensures forall w :: w in trace[|events|].waiting && !Has(w.opt, FLAG_AND) ==>
              && Has(w.opt, FLAG_OR) && (exists k :: k in Flags(w.want))
              && forall k :: k in Flags(w.want) ==> k !in Flags(trace[|events|].bits)
  {
    hide Bit, Flags, Has, Met;
    NoWaiterLeftMet(trace, events);
    var s := trace[|events|];
    forall w | w in s.waiting
      ensures (exists k :: k in Flags(w.want)) && !Satisfied(w.want, w.opt, Flags(s.bits)) && GoodOption(w.opt)
    {
      MetIsSatisfied(w.want, w.opt, s.bits);
      SomeFlag(w.want);
    }
  }

  lemma SomeFlag(x: bv32)
    requires x != 0
    ensures exists k :: k in Flags(x)
  {
    hide Bit, Flags;
    ApartIsDisjoint(x, x);
    AndSelf(x);
  }

  lemma AndSelf(x: bv32)
    ensures x & x == x
  {
  }

  /** What one sending does to the list ws with the flags there: it wakes the first thread they satisfy, with its
      share, and passes those in front of it; when they satisfy nobody, all stay. */
  ghost predicate FirstIsWoken(ws: seq<Waiter>, there: iset<bv5>, left: seq<Waiter>, woken: seq<Woken>) {
    && (NoneSatisfied(ws, there) ==> left == ws && woken == [])
    && forall i: nat :: FirstSatisfied(ws, there, i) ==>
         woken != [] && WokenWith(woken[0], ws[i], there) && ws[..i] <= left
  }

  /** The flags there are all still in the set or taken, and none of them twice. */
  ghost predicate Conserved(there: iset<bv5>, left: iset<bv5>, woken: seq<Woken>) {
    && left <= there
    && (forall k :: k in there ==> k in left || Took(woken, k))
    && (forall i :: 0 <= i < |woken| && woken[i].cleared ==> Flags(woken[i].got) !! left)
    && forall i, j :: 0 <= i < j < |woken| && woken[i].cleared ==> Flags(woken[i].got) !! Flags(woken[j].got)
  }

  lemma SweepAnswers(bits: bv32, ws: seq<Waiter>)
    requires GoodOptions(ws)
    ensures var r := SweepFrom(bits, ws);
            && FirstIsWoken(ws, Flags(bits), r.waiting, r.woken)
            && Conserved(Flags(bits), Flags(r.bits), r.woken)
            && NoneSatisfied(r.waiting, Flags(r.bits))
  {
    hide Bit, Flags, Has, Met, SweepFrom, Satisfied, WokenWith, Took, GoodOption, Within, Apart;
    var r := SweepFrom(bits, ws);
    if NoneSatisfied(ws, Flags(bits)) {
      SweepWakesNone(bits, ws);
    }
    forall i: nat | FirstSatisfied(ws, Flags(bits), i)
      ensures r.woken != [] && WokenWith(r.woken[0], ws[i], Flags(bits)) && ws[..i] <= r.waiting
    {
      var b := SweepWakesFirst(bits, ws, i);
    }
    forall k | k in Flags(bits)
      ensures k in Flags(r.bits) || Took(r.woken, k)
    {
      SweepLosesNothing(bits, ws, k);
    }
    SweepLeavesNoneMet(bits, ws);
    WithinIsSubset(r.bits, bits);
    forall w | w in r.waiting
      ensures !Satisfied(w.want, w.opt, Flags(r.bits))
    {
      MetIsSatisfied(w.want, w.opt, r.bits);
    }
    ConsumedOnce(bits, ws);
    ConsumedFlags(bits, r.bits, r.woken);
  }

  lemma ConsumedFlags(bits: bv32, left: bv32, woken: seq<Woken>)
    requires Consumed(bits, left, woken)
    ensures forall i :: 0 <= i < |woken| && woken[i].cleared ==> Flags(woken[i].got) !! Flags(left)
    ensures forall i, j :: 0 <= i < j < |woken| && woken[i].cleared ==> Flags(woken[i].got) !! Flags(woken[j].got)
  {
    hide Bit, Within, Apart;
    forall i | 0 <= i < |woken| && woken[i].cleared
      ensures Flags(woken[i].got) !! Flags(left)
    {
      ApartIsDisjoint(woken[i].got, left);
    }
    forall i, j | 0 <= i < j < |woken| && woken[i].cleared
      ensures Flags(woken[i].got) !! Flags(woken[j].got)
    {
      ApartIsDisjoint(woken[i].got, woken[j].got);
    }
  }

  /** The loop of rt_event_send half way: passed threads stay, those in rest are still to be looked at. */
  ghost predicate Swept(first: bv32, all: seq<Waiter>, bits: bv32, passed: seq<Waiter>, rest: seq<Waiter>,
      woken: seq<Woken>) {
    var r := SweepFrom(bits, rest);
    SweepFrom(first, all) == Sweep(r.bits, passed + r.waiting, woken + r.woken)
  }

  lemma SendIsSweep(s: State, bits_: bv32)
    ensures Apply(s, Send(bits_)) == if bits_ == 0 then s
            else State(SweepFrom(With(s.bits, bits_), s.waiting).bits,
              SweepFrom(With(s.bits, bits_), s.waiting).waiting)
  {
  }

  lemma SweepStarts(bits: bv32, all: seq<Waiter>)
    ensures Swept(bits, all, bits, [], all, [])
  {
    hide Met, Received, Cleared, Has;
    var r := SweepFrom(bits, all);
    assert [] + r.waiting == r.waiting && [] + r.woken == r.woken;
  }

  lemma SweepGoesOn(first: bv32, all: seq<Waiter>, bits: bv32, passed: seq<Waiter>, rest: seq<Waiter>,
      woken: seq<Woken>)
    requires Swept(first, all, bits, passed, rest, woken) && rest != []
    ensures var w := rest[0];
            if Met(w.want, w.opt, bits) then
              var got := Received(w.want, w.opt, bits);
              Swept(first, all, Cleared(bits, got, w.opt), passed, rest[1..],
                woken + [Woken(w.t, got, Has(w.opt, FLAG_CLEAR))])
            else Swept(first, all, bits, passed + [w], rest[1..], woken)
  {
    hide Met, Received, Cleared, Has;
    var w, r := rest[0], SweepFrom(bits, rest);
    if Met(w.want, w.opt, bits) {
      var got := Received(w.want, w.opt, bits);
      var r' := SweepFrom(Cleared(bits, got, w.opt), rest[1..]);
      var one := [Woken(w.t, got, Has(w.opt, FLAG_CLEAR))];
      assert woken + (one + r'.woken) == woken + one + r'.woken;
    } else {
      var r' := SweepFrom(bits, rest[1..]);
      assert passed + ([w] + r'.waiting) == passed + [w] + r'.waiting;
    }
  }

  lemma SweepEnds(first: bv32, all: seq<Waiter>, bits: bv32, passed: seq<Waiter>, woken: seq<Woken>)
    requires Swept(first, all, bits, passed, [], woken)
    ensures SweepFrom(first, all) == Sweep(bits, passed, woken)
  {
    assert passed + [] == passed && woken + [] == woken;
  }

  /** struct rt_event, with the event fields of the threads that wait on it. */
  class EventObject {
    var bits: bv32               // event->set
    var waiting: seq<Waiter>     // parent.suspend_thread

    ghost function View(): State
      reads this
    {
      State(bits, waiting)
    }

    constructor ()
      ensures View() == State(0, []) && Inv(View())
    {
      bits, waiting := 0, [];
    }

    /** The bits a satisfied thread finds in its event_set. */
    method Got(want: bv32, opt: bv8) returns (got: bv32)
      ensures got == Received(want, opt, bits)
    {
      if Has(opt, FLAG_AND) {
        got := want;
      } else {
        got := want & bits;
      }
    }

    method Clear(got: bv32, opt: bv8)
      modifies this`bits
      ensures bits == Cleared(old(bits), got, opt)
    {
      if Has(opt, FLAG_CLEAR) {
        bits := bits & !got;
      }
    }

    /** rt_event_send; woken lists the resumed threads with what they received. */
    method Send(bits_: bv32) returns (err: int, woken: seq<Woken>)
      requires Inv(View())
      modifies this
      ensures View() == Apply(old(View()), Event.Send(bits_))
      ensures Inv(View())
      ensures err == -RT_ERROR <==> bits_ == 0
      ensures bits_ != 0 ==> woken == SweepFrom(With(old(bits), bits_), old(waiting)).woken
      ensures bits_ == 0 ==> woken == [] && View() == old(View())
      ensures bits_ != 0 ==>
                && FirstIsWoken(old(waiting), Flags(old(bits)) + Flags(bits_), waiting, woken)
                && Conserved(Flags(old(bits)) + Flags(bits_), Flags(bits), woken)
                && NoneSatisfied(waiting, Flags(bits))
    {
      hide Met, Received, Cleared, Has, Swept, Apply, SweepFrom, With, Flags, Bit, FirstIsWoken, Conserved,
           NoneSatisfied, GoodOption;
      StepKeeps(View(), Event.Send(bits_));
      SendIsSweep(View(), bits_);
      if bits_ == 0 {
        return -RT_ERROR, [];
      }
      err := RT_EOK;
      Raise(bits_);
      SweepAnswers(bits, waiting);
      woken := WakeAll();
    }

    /** event->set |= set. */
    method Raise(bits_: bv32)
      modifies this`bits
      ensures bits == With(old(bits), bits_) && Flags(bits) == Flags(old(bits)) + Flags(bits_)
    {
      hide Flags, Bit;
      WithIsUnion(bits, bits_);
      bits := bits | bits_;
    }

    /** The loop of rt_event_send. */
    method WakeAll() returns (woken: seq<Woken>)
      modifies this
      ensures SweepFrom(old(bits), old(waiting)) == Sweep(bits, waiting, woken)
    {
      hide Met, Received, Cleared, Has, Swept, SweepFrom;
      ghost var first, all := bits, waiting;
      woken := [];
      var n := 0;
      assert waiting[0..] == waiting && waiting[..0] == [];
      SweepStarts(first, all);
      while n < |waiting|
        invariant n <= |waiting| && Swept(first, all, bits, waiting[..n], waiting[n..], woken)
        decreases |waiting| - n
      {
        var w := waiting[n];
        SweepGoesOn(first, all, bits, waiting[..n], waiting[n..], woken);
        if Met(w.want, w.opt, bits) {
          ghost var was := waiting;
          var got := Got(w.want, w.opt);
          Clear(got, w.opt);
          waiting := waiting[..n] + waiting[n + 1..];
          woken := woken + [Woken(w.t, got, Has(w.opt, FLAG_CLEAR))];
          assert waiting[n..] == was[n..][1..] && waiting[..n] == was[..n];
        } else {
          assert waiting[..n] + [w] == waiting[..n + 1] && waiting[n..][1..] == waiting[n + 1..];
          n := n + 1;
        }
      }
      assert waiting[..n] == waiting && waiting[n..] == [];
      SweepEnds(first, all, bits, waiting, woken);
    }

    /** The condition of rt_event_recv. */
    method Test(want: bv32, opt: bv8) returns (met: bool)
      ensures met <==> Met(want, opt, bits)
      ensures GoodOption(opt) ==> (met <==> Satisfied(want, opt, Flags(bits)))
    {
      hide Bit, Flags, Has, Satisfied, Met;
      TestIsMet(bits, want, opt);
      if GoodOption(opt) {
        MetIsSatisfied(want, opt, bits);
      }
      met := false;
      if Has(opt, FLAG_AND) {
        if bits & want == want {
          met := true;
        }
      } else if Has(opt, FLAG_OR) {
        if bits & want != 0 {
          met := true;
        }
      }
    }

    /** The immediate path of rt_event_recv. */
    method Fetch(want: bv32, opt: bv8) returns (recved: bv32)
      requires Met(want, opt, bits)
      modifies this`bits
      ensures recved == Received(want, opt, old(bits))
      ensures bits == Cleared(old(bits), want, opt)
      ensures Flags(recved) == Flags(want) * Flags(old(bits))
      ensures Flags(bits) == if Has(opt, FLAG_CLEAR) then Flags(old(bits)) - Flags(want) else Flags(old(bits))
    {
      hide Cleared, Has, Flags, Bit;
      FlagsOfAnd(bits, want);
      ClearedIsWithout(bits, want, opt);
      BlockedAndImmediateAgree(want, opt, bits);
      recved := bits & want;
      Clear(want, opt);
    }

    /** rt_event_recv up to the point where the thread has its bits, gives up, or is suspended at place
        at of the waiting list. */
    method Recv(t: Tid, want: bv32, opt: bv8, block: bool, at: nat) returns (err: int, recved: bv32)
      requires Inv(View()) && Enabled(View(), Event.Recv(t, want, opt, block, at))
      modifies this
      ensures View() == Apply(old(View()), Event.Recv(t, want, opt, block, at))
      ensures Inv(View())
      ensures err == -RT_ERROR <==> want == 0
      ensures want != 0 && Satisfied(want, opt, Flags(old(bits))) ==>
                && err == RT_EOK && waiting == old(waiting) && Flags(recved) == Flags(want) * Flags(old(bits))
                && Flags(bits) == if Has(opt, FLAG_CLEAR) then Flags(old(bits)) - Flags(want) else Flags(old(bits))
      ensures want != 0 && !Satisfied(want, opt, Flags(old(bits))) ==>
                && (err == -RT_ETIMEOUT <==> !block) && bits == old(bits) && recved == 0
                && waiting == if block then old(waiting)[..at] + [Waiter(t, want, opt)] + old(waiting)[at..]
                              else old(waiting)
      ensures want == 0 ==> View() == old(View())
    {
      hide Met, Has, Received, Flags, Bit, Satisfied;
      MetIsSatisfied(want, opt, bits);
      StepKeeps(View(), Event.Recv(t, want, opt, block, at));
      err, recved := RT_EOK, 0;
      if want == 0 {
        return -RT_ERROR, 0;
      }
      var met := Test(want, opt);
      if met {
        recved := Fetch(want, opt);
      } else if !block {
        err := -RT_ETIMEOUT;
      } else {
        waiting := waiting[..at] + [Waiter(t, want, opt)] + waiting[at..];
      }
    }
  }

  /** The condition as rt_event_recv writes it. */
  lemma TestIsMet(bits: bv32, want: bv32, opt: bv8)
    ensures Met(want, opt, bits)
       <==> if Has(opt, FLAG_AND) then bits & want == want else Has(opt, FLAG_OR) && bits & want != 0
  {
    hide Has;
    SameBits(bits, want);
  }

  lemma SameBits(a: bv32, b: bv32)
    ensures a & b == b & a
  {
  }
}
