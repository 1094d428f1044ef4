/** The token bucket that paces upload payloads. Rates and times are reals; the gain is floored. */
module Throttle {
  import opened Arithmetic

  const U64_MAX: nat := 0xFFFF_FFFF_FFFF_FFFF

  class UploadThrottle {
    var rate: nat
    var tokens: nat
    var last: real
    /** Payload consumed since the window opened. */
    ghost var spent: nat
    ghost var since: real

    /** In any window, payload stays within one second's worth plus what the elapsed time gives. */
    ghost predicate Paced()
      reads this
    {
      && tokens <= rate && since <= last
      && (rate > 0 ==> spent as real + tokens as real <= rate as real + rate as real * (last - since))
    }

    constructor (rate: nat, now: real)
      ensures Paced() && this.rate == rate && tokens == rate && spent == 0 && since == now
    {
      this.rate, tokens, last := rate, rate, now;
      spent, since := 0, now;
    }

    /** Opens a new window for the claim, wherever the bucket stands. */
    ghost method OpenWindow()
      requires Paced()
      modifies this`spent, this`since
      ensures Paced() && spent == 0 && since == last
    {
      spent, since := 0, last;
    }

    /** A new rate clamps the budget; the claim starts over with it. */
    method SetRate(newRate: nat)
      requires Paced()
      modifies this
      ensures Paced() && rate == newRate && tokens == Min(old(tokens), newRate) && last == old(last)
    {
      rate := newRate;
      tokens := Min(tokens, newRate);
      spent, since := 0, last;
    }

    method Refill(now: real)
      requires Paced() && now >= last
      modifies this`tokens, this`last
      ensures Paced() && rate == old(rate) && tokens >= old(tokens)
      ensures rate > 0 ==> last == now && tokens == Min(old(tokens) + ((now - old(last)) * rate as real).Floor, rate)
      ensures rate == 0 ==> last == old(last) && tokens == old(tokens)
    {
      if rate == 0 {
        return;
      }
      var elapsed := now - last;
      GainBound(elapsed, rate);
      WindowGrows(rate, last - since, elapsed);
      last := now;
      var gained := (elapsed * rate as real).Floor;
      tokens := Min(tokens + gained, rate);
    }

    /** The byte budget for the next chunk, at its largest without a limit. */
    function Budget(): (budget: nat)
      reads this
      ensures rate == 0 ==> budget == 0xFFFF_FFFF_FFFF_FFFF
      ensures rate > 0 ==> budget == tokens
    {
      if rate == 0 then U64_MAX else tokens
    }

    predicate IsLimited()
      reads this
    {
      rate != 0
    }

    method Consume(bytes: nat)
      requires Paced()
      modifies this`tokens, this`spent
      ensures rate != 0 ==> tokens == SatSub(old(tokens), bytes) && spent == old(spent) + bytes
      ensures rate == 0 ==> tokens == old(tokens) && spent == old(spent)
      ensures bytes <= old(Budget()) ==> Paced()
    {
      if rate == 0 {
        return;
      }
      tokens := SatSub(tokens, bytes);
      spent := spent + bytes;
    }

    /** How long until `bytes` of budget accrue; zero when they are there. */
    function DelayUntil(bytes: nat): (delay: real)
      reads this
      ensures delay == 0.0 <==> rate == 0 || tokens >= bytes
      ensures delay >= 0.0
    {
      if rate == 0 || tokens >= bytes then 0.0
      else (bytes - tokens) as real / rate as real
    }

    /** The bytes accrue exactly once that long has passed; the refill then holds them, up to the bucket's size. */
    lemma {:induction false} DelayIsLeast(bytes: nat, elapsed: real)
      requires rate > 0 && tokens < bytes && elapsed >= 0.0
      ensures var gained := (elapsed * rate as real).Floor;
              && gained >= 0 && (tokens + gained >= bytes <==> elapsed >= DelayUntil(bytes))
              && (elapsed == DelayUntil(bytes) ==> Min(tokens + gained, rate) == Min(bytes, rate))
    {
      GainReaches(elapsed, rate as real, bytes - tokens);
      GainBound(elapsed, rate);
    }
  }

  lemma {:induction false} GainReaches(elapsed: real, rate: real, needed: nat)
    requires rate > 0.0
    ensures (elapsed * rate).Floor >= needed <==> elapsed >= needed as real / rate
    ensures elapsed == needed as real / rate ==> (elapsed * rate).Floor == needed
  {
    var delay := needed as real / rate;
    var gained, wanted := elapsed * rate, delay * rate;
    assert wanted == needed as real;
    if elapsed < delay {
      Scaled(elapsed, delay, rate);
    } else if elapsed > delay {
      Scaled(delay, elapsed, rate);
    }
    assert gained >= wanted <==> elapsed >= delay;
    assert gained.Floor >= needed <==> gained >= wanted;
  }

  lemma {:induction false} Scaled(a: real, b: real, c: real)
    requires a < b && c > 0.0
    ensures a * c < b * c
  {
  }

  lemma {:induction false} GainBound(elapsed: real, rate: nat)
    requires elapsed >= 0.0
    ensures 0 <= (elapsed * rate as real).Floor
    ensures (elapsed * rate as real).Floor as real <= elapsed * rate as real
  {
  }

  lemma {:induction false} WindowGrows(rate: nat, before: real, elapsed: real)
    ensures rate as real * (before + elapsed) == rate as real * before + elapsed * rate as real
  {
  }
}
