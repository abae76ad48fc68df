/** Double hashing over a table whose size is a power of two (3rdparty/Shiny/src/ShinyManager.c):
    the step is odd, so the probes of one hash visit every slot before any slot comes again. */
module OddProbing {
  import opened Probing

  /** The range of an unsigned 32-bit word. */
  const WORD: nat := 0x1_0000_0000

  /** `hash_offset`: the shifted hashes are added in a word, and the last bit is set. */
  function HashOffset(a: nat): (step: nat)
    ensures step % 2 == 1
  {
    var x := ((a * 256) % WORD + a / 16) % WORD;
    if x % 2 == 0 then x + 1 else x
  }

  /** The slot of probe `p` of a hash. */
  function StepSlot(h: nat, p: nat, c: nat): (i: nat)
    requires c > 0
    ensures i < c
  {
    (h + p * HashOffset(h)) % c
  }

  /** `x & mask`, where the mask is one less than a power of two. */
  function Masked(x: nat, mask: nat): (i: nat)
    ensures i <= mask
  {
    x % (mask + 1)
  }

  lemma {:induction false} PowerDividesWord(c: nat, w: nat) returns (k: nat)
    requires PowerOfTwo(c) && PowerOfTwo(w) && c <= w
    ensures w == c * k
  {
    if c == 1 {
      k := w;
    } else {
      k := PowerDividesWord(c / 2, w / 2);
      assert w == 2 * (w / 2) == 2 * ((c / 2) * k) == c * k;
    }
  }

  lemma {:induction false} PowersMultiply(a: nat, b: nat)
    requires PowerOfTwo(a) && PowerOfTwo(b)
    ensures PowerOfTwo(a * b)
  {
    if a > 1 {
      var half := a / 2;
      PowersMultiply(half, b);
      TwiceProduct(half, b);
    }
  }

  lemma TwiceProduct(half: nat, b: nat)
    requires PowerOfTwo(half * b)
    ensures PowerOfTwo(2 * half * b)
  {
    NextPower(half * b);
    assert 2 * half * b == (half * b) * 2;
  }

  lemma WordIsPower()
    ensures PowerOfTwo(WORD)
  {
    assert PowerOfTwo(4) && PowerOfTwo(16);
    PowersMultiply(16, 16);
    PowersMultiply(0x100, 0x100);
    PowersMultiply(0x1_0000, 0x1_0000);
  }

  /** A sum that wraps around in a word has the same last bits. */
  lemma WrapKeepsSlot(x: nat, c: nat)
    requires PowerOfTwo(c) && c <= WORD
    ensures (x % WORD) % c == x % c
  {
    hide PowerOfTwo;
    WordIsPower();
    var k := PowerDividesWord(c, WORD);
    var q, r := x / WORD, x % WORD;
    assert WORD * q == c * (k * q);
    assert x == c * (k * q + r / c) + r % c;
    DivisionIsUnique(x, c, k * q + r / c, r % c);
  }

  lemma FirstStep(h: nat, c: nat)
    requires c > 0
    ensures Masked(h, c - 1) == StepSlot(h, 0, c)
  {
  }

  /** The code goes from one probe to the next by adding the step in a word and masking. */
  lemma NextStep(h: nat, p: nat, c: nat)
    requires PowerOfTwo(c) && c <= WORD
    ensures Masked((StepSlot(h, p, c) + HashOffset(h)) % WORD, c - 1) == StepSlot(h, p + 1, c)
  {
    hide HashOffset, PowerOfTwo;
    var step := HashOffset(h);
    PowerNotZero(c);
    WrapKeepsSlot(StepSlot(h, p, c) + step, c);
    RemainderOfSum(h + p * step, step, c);
    OneStepMore(h, p, step);
  }

  lemma PowerNotZero(c: nat)
    requires PowerOfTwo(c)
    ensures c > 0
  {
  }

  lemma OneStepMore(h: nat, p: nat, step: nat)
    ensures h + p * step + step == h + (p + 1) * step
  {
  }

  /** Two of the first `c` probes never share a slot. */
  lemma StepsAreDistinct(h: nat, p: nat, q: nat, c: nat)
    requires PowerOfTwo(c) && q <= p < c && StepSlot(h, p, c) == StepSlot(h, q, c)
    ensures p == q
  {
    hide HashOffset, PowerOfTwo;
    var step := HashOffset(h);
    var m := SameRemainder(h + p * step, h + q * step, c);
    assert (p - q) * step == c * m;
    var j := OddFactorDropsOut(c, p - q, step, m);
    Scale(c, j);
  }

  // ---------- Every slot ----------

  ghost function Stepped(h: nat, n: nat, c: nat): set<nat>
    requires c > 0
  {
    set p | 0 <= p < n :: StepSlot(h, p, c)
  }

  lemma {:induction false} SteppedCount(h: nat, n: nat, c: nat)
    requires PowerOfTwo(c) && n <= c
    ensures |Stepped(h, n, c)| == n
  {
    hide StepSlot;
    if n > 0 {
      SteppedCount(h, n - 1, c);
      assert Stepped(h, n, c) == Stepped(h, n - 1, c) + {StepSlot(h, n - 1, c)};
      if StepSlot(h, n - 1, c) in Stepped(h, n - 1, c) {
        var q :| 0 <= q < n - 1 && StepSlot(h, q, c) == StepSlot(h, n - 1, c);
        StepsAreDistinct(h, n - 1, q, c);
        assert false;
      }
    } else {
      assert Stepped(h, 0, c) == {};
    }
  }

  /** Within the first `c` probes every slot is visited. */
  lemma StepsReachEverySlot(h: nat, c: nat, i: nat)
    requires PowerOfTwo(c) && i < c
    ensures exists p: nat :: p < c && StepSlot(h, p, c) == i
  {
    SteppedCount(h, c, c);
    FullSubset(Stepped(h, c, c), Below(c));
    assert i in Below(c);
  }
}
