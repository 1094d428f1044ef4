/** What one tick over all incoming files can come to, as far as the files and the two budgets decide it. */
module Ticks {
  import opened Arithmetic
  import opened Wire
  import opened Upload
  import opened Download

  /** What a receiver holds before the tick, as far as its pump depends on it. */
  datatype Holding = Holding(encoding: Encoding, size: nat, have: nat, unread: nat, closing: bool)

  function PumpPlan(h: Holding, wire: nat, decoded: nat, grants: nat -> nat, decodings: nat -> Decoding): Spending {
    Spend(h.encoding, h.size, h.have, h.unread, h.closing, wire, decoded, grants, decodings, 0)
  }

  /** The decode budget a pump leaves to the next file: all of it if it breaks off. */
  function Remaining(decoded: nat, s: Spending): nat {
    if s.broke then decoded else SatSub(decoded, s.written)
  }

  /** Bytes the files from `i` on will write, each under what the one before leaves. */
  function TickTotal(held: seq<Holding>, i: nat, wire: nat, decoded: nat, grants: nat -> (nat -> nat),
                     decodings: nat -> (nat -> Decoding)): nat
    decreases |held| - i
  {
    if i >= |held| || wire == 0 || decoded == 0 then 0
    else
      var plan := PumpPlan(held[i], wire, decoded, grants(i), decodings(i));
      plan.written
      + TickTotal(held, i + 1, SatSub(wire, plan.consumed), Remaining(decoded, plan), grants, decodings)
  }

  // --- What one pump can come to ---------------------------------------------------------------

  /**
   * The outcomes a decompressing pump has, whatever its target and the decompressor do. It writes as much as budget
   * and declared size allow, or less. To break off it must stop short of its input, or fail in closing; to end well it
   * must use up its input or its budget.
   */
  predicate MayUnpack(size: nat, have: nat, unread: nat, closing: bool, wire: nat, work: nat, s: Spending)
    requires have <= size
  {
    && s.written <= Min(work, size - have) && s.consumed <= Min(wire, unread)
    && (if s.broke then s.consumed < Min(wire, unread) || (closing && s.consumed == unread)
        else s.consumed == Min(wire, unread) || s.written == work)
    && (unread == 0 && !closing ==> s.written == 0)
  }

  /** Those of an identity pump: refused outright, broken off before its input and budget are used up, or not at all. */
  predicate MayCopy(size: nat, have: nat, unread: nat, wire: nat, work: nat, s: Spending) {
    && s.written == s.consumed
    && (if unread == 0 then s == Spending(0, 0, false)
        else if have + Min(wire, unread) > size then s == Spending(0, 0, true)
        else if s.broke then s.written < Min(Min(wire, unread), work)
        else s.written == Min(Min(wire, unread), work))
  }

  predicate Possible(h: Holding, wire: nat, decoded: nat, s: Spending) {
    h.have <= h.size
    && if h.encoding == Identity then MayCopy(h.size, h.have, h.unread, wire, decoded, s)
       else MayUnpack(h.size, h.have, h.unread, h.closing, wire, decoded, s)
  }

  lemma {:induction false} UnpackStays(size: nat, have: nat, unread: nat, closing: bool, wire: nat, work: nat,
                                       grants: nat -> nat, decodings: nat -> Decoding, k: nat)
    requires have <= size && work > 0
    ensures MayUnpack(size, have, unread, closing, wire, work,
                      Spend(Zstd, size, have, unread, closing, wire, work, grants, decodings, k))
    decreases wire
  {
    hide Spend, Poured;
    if unread == 0 || wire == 0 {
      SpendEnd(Zstd, size, have, unread, closing, wire, work, grants, decodings, k);
    } else {
      SpendStep(Zstd, size, have, unread, closing, wire, work, grants, decodings, k);
      PouredBlocks(size, have, work, grants(k), decodings(k).outputs);
      var a := Attempt(Zstd, size, have, Min(wire, unread), work, grants(k), decodings(k));
      if a.result.Wrote? && a.result.n > 0 && a.written < work {
        UnpackStays(size, have + a.written, unread - a.result.n, closing, wire - a.result.n, work - a.written, grants,
                    decodings, k + 1);
      }
    }
  }

  /** A write blocks only once the budget is gone. */
  lemma {:induction false} PouredBlocks(size: nat, have: nat, work: nat, granted: nat, outputs: seq<seq<Byte>>)
    ensures var a := Poured(size, have, work, granted, outputs); a.result.WouldBlock? ==> a.written == work
    decreases |outputs|
  {
    if outputs != [] && have + |outputs[0]| <= size && work > 0 {
      var n := Min(granted, Min(|outputs[0]|, work));
      PouredBlocks(size, have + n, work - n, granted, outputs[1..]);
    }
  }

  lemma {:induction false} CopyStays(size: nat, have: nat, unread: nat, closing: bool, wire: nat, work: nat,
                                     grants: nat -> nat, decodings: nat -> Decoding, k: nat)
    requires work > 0
    ensures MayCopy(size, have, unread, wire, work,
                    Spend(Identity, size, have, unread, closing, wire, work, grants, decodings, k))
         || (wire == 0 && Spend(Identity, size, have, unread, closing, wire, work, grants, decodings, k)
                          == Spending(0, 0, false))
    decreases wire
  {
    hide Spend;
    if unread == 0 || wire == 0 {
      SpendEnd(Identity, size, have, unread, closing, wire, work, grants, decodings, k);
    } else {
      SpendStep(Identity, size, have, unread, closing, wire, work, grants, decodings, k);
      var a := Attempt(Identity, size, have, Min(wire, unread), work, grants(k), decodings(k));
      if a.result.Wrote? && a.result.n > 0 && a.written < work {
        CopyStays(size, have + a.written, unread - a.result.n, closing, wire - a.result.n, work - a.written, grants,
                  decodings, k + 1);
      }
    }
  }

  /** No behaviour of target and decompressor leads anywhere else. */
  lemma {:induction false} PlanIsPossible(h: Holding, wire: nat, decoded: nat, grants: nat -> nat,
                                          decodings: nat -> Decoding)
    requires h.have <= h.size && wire > 0 && decoded > 0
    ensures Possible(h, wire, decoded, PumpPlan(h, wire, decoded, grants, decodings))
  {
    hide Spend;
    if h.encoding == Identity {
      CopyStays(h.size, h.have, h.unread, h.closing, wire, decoded, grants, decodings, 0);
    } else {
      UnpackStays(h.size, h.have, h.unread, h.closing, wire, decoded, grants, decodings, 0);
    }
  }

  // --- ... and does -------------------------------------------------------------------------------

  /** One call into the decompressor, and another for every further one. */
  function Script(first: Decoding, next: Decoding): nat -> Decoding {
    k => if k == 0 then first else next
  }

  lemma {:induction false} PouredOnce(size: nat, have: nat, work: nat, granted: nat, bytes: nat)
    requires have + bytes <= size && bytes <= work && bytes <= granted && work > 0
    ensures Poured(size, have, work, granted, [Zeros(bytes)]) == Attempted(bytes, Wrote(0))
    ensures bytes == work ==> Poured(size, have, work, granted, [Zeros(bytes), []]) == Attempted(bytes, WouldBlock)
    ensures Poured(size, have, work, granted, []) == Attempted(0, Wrote(0))
  {
    assert [Zeros(bytes)][1..] == [];
    assert [Zeros(bytes), []][1..] == [[]];
  }

  /** A first call that only takes wire bytes. */
  lemma {:induction false} SkipStep(size: nat, have: nat, unread: nat, closing: bool, wire: nat, work: nat,
                                    grants: nat -> nat, decodings: nat -> Decoding, taken: nat)
    requires have <= size && work > 0 && 0 < taken <= Min(wire, unread) && decodings(0) == Decoding([], false, taken)
    ensures Spend(Zstd, size, have, unread, closing, wire, work, grants, decodings, 0) ==
            var rest := Spend(Zstd, size, have, unread - taken, closing, wire - taken, work, grants, decodings, 1);
            Spending(rest.written, taken + rest.consumed, rest.broke)
  {
    hide Spend;
    SpendStep(Zstd, size, have, unread, closing, wire, work, grants, decodings, 0);
  }

  /** A call that writes and turns out corrupt, in closing too; and one that writes all the budget and then blocks. */
  lemma {:induction false} LastStep(size: nat, have: nat, unread: nat, closing: bool, wire: nat, work: nat,
                                    grants: nat -> nat, decodings: nat -> Decoding, k: nat, bytes: nat)
    requires have <= size && bytes <= Min(work, size - have) && work > 0 && grants(k) == work
    requires if unread > 0 then wire > 0 else closing
    ensures var spending := Spend(Zstd, size, have, unread, closing, wire, work, grants, decodings, k);
            && (decodings(k) == Decoding([Zeros(bytes)], true, 0) ==> spending == Spending(bytes, 0, true))
            && (decodings(k) == Decoding([Zeros(bytes), []], false, 0) && bytes == work ==>
                  spending == Spending(bytes, 0, false))
  {
    hide Spend, Poured;
    PouredOnce(size, have, work, grants(k), bytes);
    if unread == 0 {
      SpendEnd(Zstd, size, have, unread, closing, wire, work, grants, decodings, k);
    } else {
      SpendStep(Zstd, size, have, unread, closing, wire, work, grants, decodings, k);
    }
  }

  /** A call that writes and takes all there is; nothing happens after it. */
  lemma {:induction false} DrainStep(size: nat, have: nat, unread: nat, closing: bool, wire: nat, work: nat,
                                     grants: nat -> nat, bytes: nat)
    requires have <= size && bytes <= Min(work, size - have) && work > 0 && wire > 0 && grants(0) == work
    requires unread == 0 && !closing ==> bytes == 0
    ensures var input := Min(wire, unread);
            var decodings := Script(Decoding([Zeros(bytes)], false, input), Decoding([], false, 0));
            Spend(Zstd, size, have, unread, closing, wire, work, grants, decodings, 0) == Spending(bytes, input, false)
  {
    hide Spend, Poured;
    var input := Min(wire, unread);
    var decodings := Script(Decoding([Zeros(bytes)], false, input), Decoding([], false, 0));
    PouredOnce(size, have, work, grants(0), bytes);
    if unread == 0 {
      SpendEnd(Zstd, size, have, unread, closing, wire, work, grants, decodings, 0);
    } else {
      SpendStep(Zstd, size, have, unread, closing, wire, work, grants, decodings, 0);
      if bytes < work {
        SpendEnd(Zstd, size, have + bytes, unread - input, closing, wire - input, work - bytes, grants, decodings, 1);
        NothingPoured(size, have + bytes, work - bytes, grants(1));
      }
    }
  }

  lemma {:induction false} NothingPoured(size: nat, have: nat, work: nat, granted: nat)
    ensures Poured(size, have, work, granted, []) == Attempted(0, Wrote(0))
  {
  }

  lemma {:induction false} UnpackHappens(h: Holding, wire: nat, decoded: nat, s: Spending)
    returns (grants: nat -> nat, decodings: nat -> Decoding)
    requires h.encoding == Zstd && Possible(h, wire, decoded, s) && wire > 0 && decoded > 0
    ensures PumpPlan(h, wire, decoded, grants, decodings) == s
  {
    grants := k => decoded;
    hide Spend, Poured;
    if !s.broke && s.consumed == Min(wire, h.unread) {
      decodings := Script(Decoding([Zeros(s.written)], false, s.consumed), Decoding([], false, 0));
      DrainStep(h.size, h.have, h.unread, h.closing, wire, decoded, grants, s.written);
    } else {
      var last := if s.broke then Decoding([Zeros(s.written)], true, 0)
                  else Decoding([Zeros(s.written), []], false, 0);
      if s.consumed == 0 {
        decodings := Script(last, last);
        LastStep(h.size, h.have, h.unread, h.closing, wire, decoded, grants, decodings, 0, s.written);
      } else {
        decodings := Script(Decoding([], false, s.consumed), last);
        SkipStep(h.size, h.have, h.unread, h.closing, wire, decoded, grants, decodings, s.consumed);
        LastStep(h.size, h.have, h.unread - s.consumed, h.closing, wire - s.consumed, decoded, grants, decodings, 1,
                 s.written);
      }
    }
  }

  lemma {:induction false} CopyHappens(h: Holding, wire: nat, decoded: nat, s: Spending)
    returns (grants: nat -> nat, decodings: nat -> Decoding)
    requires h.encoding == Identity && Possible(h, wire, decoded, s) && wire > 0 && decoded > 0
    ensures PumpPlan(h, wire, decoded, grants, decodings) == s
  {
    var n := s.written;
    grants := k => if k == 0 then n else 0;
    decodings := k => Decoding([], false, 0);
    hide Spend;
    if h.unread == 0 {
      SpendEnd(Identity, h.size, h.have, h.unread, h.closing, wire, decoded, grants, decodings, 0);
    } else {
      SpendStep(Identity, h.size, h.have, h.unread, h.closing, wire, decoded, grants, decodings, 0);
      if 0 < n < decoded {
        var have, unread, left := h.have + n, h.unread - n, wire - n;
        if unread == 0 || left == 0 {
          SpendEnd(Identity, h.size, have, unread, h.closing, left, decoded - n, grants, decodings, 1);
        } else {
          SpendStep(Identity, h.size, have, unread, h.closing, left, decoded - n, grants, decodings, 1);
        }
      }
    }
  }

  /** Every possible outcome comes about. */
  lemma {:induction false} PossibleHappens(h: Holding, wire: nat, decoded: nat, s: Spending)
    returns (grants: nat -> nat, decodings: nat -> Decoding)
    requires Possible(h, wire, decoded, s) && wire > 0 && decoded > 0
    ensures PumpPlan(h, wire, decoded, grants, decodings) == s
  {
    if h.encoding == Identity {
      grants, decodings := CopyHappens(h, wire, decoded, s);
    } else {
      grants, decodings := UnpackHappens(h, wire, decoded, s);
    }
  }

  // --- Whole ticks ----------------------------------------------------------------------------------

  /** However the files from `i` on fare, they write at most `limit` bytes. */
  ghost predicate Within(held: seq<Holding>, i: nat, wire: nat, decoded: nat, limit: nat)
    decreases |held| - i
  {
    i >= |held| || wire == 0 || decoded == 0
    || forall s :: Possible(held[i], wire, decoded, s) ==>
         s.written <= limit
         && Within(held, i + 1, SatSub(wire, s.consumed), Remaining(decoded, s), limit - s.written)
  }

  ghost predicate Started(held: seq<Holding>) {
    forall i :: 0 <= i < |held| ==> held[i].have <= held[i].size
  }

  lemma {:induction false} WithinHolds(held: seq<Holding>, i: nat, wire: nat, decoded: nat, limit: nat,
                                       grants: nat -> (nat -> nat), decodings: nat -> (nat -> Decoding))
    requires Started(held) && Within(held, i, wire, decoded, limit)
    ensures TickTotal(held, i, wire, decoded, grants, decodings) <= limit
    decreases |held| - i
  {
    if i < |held| && wire > 0 && decoded > 0 {
      var plan := PumpPlan(held[i], wire, decoded, grants(i), decodings(i));
      PlanIsPossible(held[i], wire, decoded, grants(i), decodings(i));
      hide PumpPlan, Possible;
      WithinHolds(held, i + 1, SatSub(wire, plan.consumed), Remaining(decoded, plan), limit - plan.written, grants,
                  decodings);
    }
  }

  /** Only what the later files meet matters to them. */
  lemma {:induction false} TickAgrees(held: seq<Holding>, i: nat, wire: nat, decoded: nat, a: nat -> (nat -> nat),
                                      b: nat -> (nat -> nat), c: nat -> (nat -> Decoding), d: nat -> (nat -> Decoding))
    requires forall j :: j >= i ==> a(j) == b(j) && c(j) == d(j)
    ensures TickTotal(held, i, wire, decoded, a, c) == TickTotal(held, i, wire, decoded, b, d)
    decreases |held| - i
  {
    if i < |held| && wire > 0 && decoded > 0 {
      var plan := PumpPlan(held[i], wire, decoded, a(i), c(i));
      hide PumpPlan;
      TickAgrees(held, i + 1, SatSub(wire, plan.consumed), Remaining(decoded, plan), a, b, c, d);
    }
  }

  lemma {:induction false} BeyondHappens(held: seq<Holding>, i: nat, wire: nat, decoded: nat, limit: nat)
    returns (grants: nat -> (nat -> nat), decodings: nat -> (nat -> Decoding))
    requires !Within(held, i, wire, decoded, limit)
    ensures TickTotal(held, i, wire, decoded, grants, decodings) > limit
    decreases |held| - i
  {
    hide Possible, PumpPlan;
    var s :| Possible(held[i], wire, decoded, s)
      && !(s.written <= limit
           && Within(held, i + 1, SatSub(wire, s.consumed), Remaining(decoded, s), limit - s.written));
    var grant, decoding := PossibleHappens(held[i], wire, decoded, s);
    var none: nat -> nat, quiet: nat -> Decoding := k => 0, k => Decoding([], false, 0);
    var later, after := j => none, j => quiet;
    if s.written <= limit {
      later, after := BeyondHappens(held, i + 1, SatSub(wire, s.consumed), Remaining(decoded, s), limit - s.written);
    }
    grants, decodings := j => if j == i then grant else later(j), j => if j == i then decoding else after(j);
    TickAgrees(held, i + 1, SatSub(wire, s.consumed), Remaining(decoded, s), grants, later, decodings, after);
  }

  /** The budget holds under every behaviour exactly when the files and budgets say so. */
  lemma {:induction false} TickWithin(held: seq<Holding>, wire: nat, decoded: nat, limit: nat)
    requires Started(held)
    ensures (forall grants: nat -> (nat -> nat), decodings: nat -> (nat -> Decoding) ::
               TickTotal(held, 0, wire, decoded, grants, decodings) <= limit) <==>
            Within(held, 0, wire, decoded, limit)
  {
    hide TickTotal, Within;
    if Within(held, 0, wire, decoded, limit) {
      forall grants: nat -> (nat -> nat), decodings: nat -> (nat -> Decoding)
        ensures TickTotal(held, 0, wire, decoded, grants, decodings) <= limit
      {
        WithinHolds(held, 0, wire, decoded, limit, grants, decodings);
      }
    } else {
      var grants, decodings := BeyondHappens(held, 0, wire, decoded, limit);
    }
  }

  // --- The most a tick can write --------------------------------------------------------------------

  /** No identity receiver was sent more than the size it was told. */
  ghost predicate Roomy(held: seq<Holding>) {
    Started(held)
    && forall i :: 0 <= i < |held| && held[i].encoding == Identity ==> held[i].have + held[i].unread <= held[i].size
  }

  /** What a file adds under a decode budget if it breaks off: all that its declared size and the budget allow. */
  function Cap(h: Holding, decoded: nat): nat {
    if h.unread > 0 || h.closing then Min(decoded, SatSub(h.size, h.have)) else 0
  }

  /**
   * The most the files from `i` on can write. A decompressed file is worst when it breaks off with all it can write,
   * an identity one when it breaks off one byte before the end, or when it ends well.
   */
  function Most(held: seq<Holding>, i: nat, wire: nat, decoded: nat): nat
    decreases |held| - i
  {
    if i >= |held| || wire == 0 || decoded == 0 then 0
    else if held[i].encoding == Zstd then Cap(held[i], decoded) + Most(held, i + 1, wire, decoded)
    else if held[i].unread == 0 then Most(held, i + 1, wire, decoded)
    else
      var n := Min(Min(wire, held[i].unread), decoded);
      Max(n - 1 + Most(held, i + 1, wire - (n - 1), decoded), n + Most(held, i + 1, wire - n, decoded - n))
  }

  lemma {:induction false} MostIs(held: seq<Holding>, i: nat, wire: nat, decoded: nat)
    ensures i >= |held| || wire == 0 || decoded == 0 ==> Most(held, i, wire, decoded) == 0
    ensures i < |held| && wire > 0 && decoded > 0 && held[i].encoding == Zstd ==>
              Most(held, i, wire, decoded) == Cap(held[i], decoded) + Most(held, i + 1, wire, decoded)
    ensures i < |held| && wire > 0 && decoded > 0 && held[i].encoding == Identity && held[i].unread == 0 ==>
              Most(held, i, wire, decoded) == Most(held, i + 1, wire, decoded)
    ensures i < |held| && wire > 0 && decoded > 0 && held[i].encoding == Identity && held[i].unread > 0 ==>
              var n := Min(Min(wire, held[i].unread), decoded);
              && n > 0
              && Most(held, i, wire, decoded) == Max(n - 1 + Most(held, i + 1, wire - (n - 1), decoded),
                                                     n + Most(held, i + 1, wire - n, decoded - n))
  {
  }

  /** More budget, more bytes. */
  lemma {:induction false} MostGrows(held: seq<Holding>, i: nat, wire: nat, decoded: nat, more: nat, budget: nat)
    requires wire <= more && decoded <= budget
    ensures Most(held, i, wire, decoded) <= Most(held, i, more, budget)
    decreases |held| - i, 1
  {
    hide Most;
    MostIs(held, i, wire, decoded);
    MostIs(held, i, more, budget);
    if i < |held| && wire > 0 && decoded > 0 {
      var h := held[i];
      if h.encoding == Zstd || h.unread == 0 {
        MostGrows(held, i + 1, wire, decoded, more, budget);
      } else {
        var n, m := Min(Min(wire, h.unread), decoded), Min(Min(more, h.unread), budget);
        var a, b := wire - (n - 1), more - (m - 1);
        if a <= b {
          MostGrows(held, i + 1, a, decoded, b, budget);
        } else {
          MostGrows(held, i + 1, a, decoded, a, budget);
          MostSlows(held, i + 1, b, a, budget);
        }
        MostIs(held, i + 1, wire - n, decoded - n);
        if n < wire && n < decoded {
          MostGrows(held, i + 1, wire - n, decoded - n, more - m, budget - m);
        }
      }
    }
  }

  /** A wire byte more is at most a byte more, as long as there was one. */
  lemma {:induction false} MostSlows(held: seq<Holding>, i: nat, wire: nat, more: nat, decoded: nat)
    requires 0 < wire <= more
    ensures Most(held, i, more, decoded) <= Most(held, i, wire, decoded) + (more - wire)
    decreases |held| - i, 0, more - wire
  {
    hide Most;
    if wire < more {
      MostSlowsBy(held, i, more - 1, decoded);
      MostSlows(held, i, wire, more - 1, decoded);
    }
  }

  lemma {:induction false} MostSlowsBy(held: seq<Holding>, i: nat, wire: nat, decoded: nat)
    requires 0 < wire
    ensures Most(held, i, wire + 1, decoded) <= Most(held, i, wire, decoded) + 1
    decreases |held| - i, 0, 0
  {
    hide Most;
    MostIs(held, i, wire, decoded);
    MostIs(held, i, wire + 1, decoded);
    if i < |held| && decoded > 0 {
      var h := held[i];
      if h.encoding == Zstd || h.unread == 0 {
        MostSlows(held, i + 1, wire, wire + 1, decoded);
      } else {
        var n := Min(Min(wire, h.unread), decoded);
        MostIs(held, i + 1, 0, SatSub(decoded, n + 1));
        MostSlows(held, i + 1, wire - (n - 1), wire - (n - 1) + 1, decoded);
        if n < wire {
          MostSlows(held, i + 1, wire - n, wire - n + 1, decoded - n);
        } else {
          MostGrows(held, i + 1, 1, decoded - n, 1, decoded);
        }
      }
    }
  }

  /** No outcome of the next file leads further. */
  lemma {:induction false} NoneLeadsFurther(held: seq<Holding>, i: nat, wire: nat, decoded: nat, s: Spending)
    requires Roomy(held) && i < |held| && wire > 0 && decoded > 0 && Possible(held[i], wire, decoded, s)
    ensures s.written + Most(held, i + 1, SatSub(wire, s.consumed), Remaining(decoded, s)) <=
            Most(held, i, wire, decoded)
  {
    hide Most;
    MostIs(held, i, wire, decoded);
    var h := held[i];
    if h.encoding == Zstd || h.unread == 0 {
      MostGrows(held, i + 1, SatSub(wire, s.consumed), Remaining(decoded, s), wire, decoded);
    } else if s.broke {
      var n := Min(Min(wire, h.unread), decoded);
      MostSlows(held, i + 1, wire - (n - 1), wire - s.consumed, decoded);
    }
  }

  /** The worst of them is one of two. */
  lemma {:induction false} WorstIsPossible(held: seq<Holding>, i: nat, wire: nat, decoded: nat)
    returns (s: Spending)
    requires Roomy(held) && i < |held| && wire > 0 && decoded > 0
    ensures Possible(held[i], wire, decoded, s)
    ensures s.written + Most(held, i + 1, SatSub(wire, s.consumed), Remaining(decoded, s)) ==
            Most(held, i, wire, decoded)
  {
    hide Most;
    MostIs(held, i, wire, decoded);
    var h := held[i];
    if h.encoding == Zstd {
      s := Spending(Cap(h, decoded), 0, h.unread > 0 || h.closing);
    } else if h.unread == 0 {
      s := Spending(0, 0, false);
    } else {
      var n := Min(Min(wire, h.unread), decoded);
      var broken, whole := Spending(n - 1, n - 1, true), Spending(n, n, false);
      s := if n - 1 + Most(held, i + 1, wire - (n - 1), decoded) >= n + Most(held, i + 1, wire - n, decoded - n)
           then broken else whole;
    }
  }

  lemma {:induction false} WithinIsMost(held: seq<Holding>, i: nat, wire: nat, decoded: nat, limit: nat)
    requires Roomy(held)
    ensures Within(held, i, wire, decoded, limit) <==> Most(held, i, wire, decoded) <= limit
    decreases |held| - i
  {
    MostIs(held, i, wire, decoded);
    hide Most, Possible;
    if i < |held| && wire > 0 && decoded > 0 {
      if Most(held, i, wire, decoded) <= limit {
        forall s | Possible(held[i], wire, decoded, s)
          ensures s.written <= limit
          ensures Within(held, i + 1, SatSub(wire, s.consumed), Remaining(decoded, s), limit - s.written)
        {
          NoneLeadsFurther(held, i, wire, decoded, s);
          WithinIsMost(held, i + 1, SatSub(wire, s.consumed), Remaining(decoded, s), limit - s.written);
        }
      } else {
        var s := WorstIsPossible(held, i, wire, decoded);
        if s.written <= limit {
          WithinIsMost(held, i + 1, SatSub(wire, s.consumed), Remaining(decoded, s), limit - s.written);
        }
      }
    }
  }

  /** `Most` is the exact maximum over every behaviour of targets and decompressors. */
  lemma {:induction false} MostIsExact(held: seq<Holding>, wire: nat, decoded: nat, limit: nat)
    requires Roomy(held)
    ensures (forall grants: nat -> (nat -> nat), decodings: nat -> (nat -> Decoding) ::
               TickTotal(held, 0, wire, decoded, grants, decodings) <= limit) <==>
            Most(held, 0, wire, decoded) <= limit
  {
    hide TickTotal, Within, Most;
    TickWithin(held, wire, decoded, limit);
    WithinIsMost(held, 0, wire, decoded, limit);
  }

  /** What compressed files can write between them. */
  function Caps(held: seq<Holding>, i: nat, decoded: nat): nat
    decreases |held| - i
  {
    if i >= |held| then 0 else Cap(held[i], decoded) + Caps(held, i + 1, decoded)
  }

  lemma {:induction false} MostIsCaps(held: seq<Holding>, i: nat, wire: nat, decoded: nat)
    requires wire > 0 && decoded > 0 && forall j :: 0 <= j < |held| ==> held[j].encoding == Zstd
    ensures Most(held, i, wire, decoded) == Caps(held, i, decoded)
    decreases |held| - i
  {
    hide Cap;
    if i < |held| {
      MostIsCaps(held, i + 1, wire, decoded);
    }
  }

  /**
   * A tick of compressed files keeps its budget under every behaviour exactly when what the waiting ones may still
   * write, each cut to the budget, is no more than the budget.
   */
  lemma {:induction false} CompressedTick(held: seq<Holding>, wire: nat, decoded: nat)
    requires Started(held) && wire > 0 && decoded > 0 && forall j :: 0 <= j < |held| ==> held[j].encoding == Zstd
    ensures (forall grants: nat -> (nat -> nat), decodings: nat -> (nat -> Decoding) ::
               TickTotal(held, 0, wire, decoded, grants, decodings) <= decoded) <==>
            Caps(held, 0, decoded) <= decoded
  {
    hide TickTotal, Most, Caps;
    MostIsExact(held, wire, decoded, decoded);
    MostIsCaps(held, 0, wire, decoded);
  }
}
