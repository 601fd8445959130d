/**
 The sliding replay window (internal/proto/replay.go).

 The window keeps one bit for each of the 1024 sequence numbers up to the highest
 one seen. It is proved to decide exactly like the plain set of every number it
 ever accepted.
 */
module ReplayWindow {
  import opened Words

  const WINDOW_SIZE := 1024
  const WINDOW_WORDS := 16

  // ---- The specification: a set of accepted numbers ----

  /** n may still be accepted: it is new, and nothing accepted is 1024 or more ahead. */
  ghost predicate Fresh(accepted: set<uint64>, n: uint64) {
    n !in accepted && forall m <- accepted :: m - n < WINDOW_SIZE
  }

  ghost predicate IsMax(s: set<uint64>, max: uint64) {
    max in s && forall m <- s :: m <= max
  }

  /** The set of accepted numbers after a run of checks from an empty window. */
  ghost function Accepted(ns: seq<uint64>): set<uint64> {
    if ns == [] then {}
    else
      var before, n := Accepted(ns[..|ns| - 1]), ns[|ns| - 1];
      if Fresh(before, n) then before + {n} else before
  }

  /** The answer a run of checks gives to its i-th number. */
  ghost predicate Answer(ns: seq<uint64>, i: nat)
    requires i < |ns|
  {
    Fresh(Accepted(ns[..i]), ns[i])
  }

  /** The documented rule: above the highest, or less than 1024 behind it and not seen. */
  lemma FreshRule(accepted: set<uint64>, max: uint64, n: uint64)
    requires IsMax(accepted, max)
    ensures Fresh(accepted, n) <==> n > max || (max - n < 1024 && n !in accepted)
  {
  }

  lemma {:induction false} AcceptedGrows(ns: seq<uint64>, i: nat)
    requires i <= |ns|
    ensures Accepted(ns[..i]) <= Accepted(ns)
  {
    if i == |ns| {
      assert ns[..i] == ns;
    } else {
      var front := ns[..|ns| - 1];
      assert front[..i] == ns[..i];
      AcceptedGrows(front, i);
    }
  }

  /** Over any run of checks, no number is accepted twice. */
  lemma AcceptedOnce(ns: seq<uint64>, i: nat, j: nat)
    requires i < j < |ns|
    requires Answer(ns, i) && Answer(ns, j)
    ensures ns[i] != ns[j]
  {
    var upto := ns[..i + 1];
    assert upto[..i] == ns[..i];
    assert ns[..j][..i + 1] == upto;
    AcceptedGrows(ns[..j], i + 1);
  }

  // ---- The bitmap ----

  type Bitmap = m: seq<uint64> | |m| == WINDOW_WORDS witness seq(WINDOW_WORDS, _ => 0)

  /** The bit kept for the number that lies `age` behind the highest. */
  predicate Has(m: Bitmap, age: nat)
    requires age < WINDOW_SIZE
  {
    Bit(m[age / 64], age % 64)
  }

  /** Word i of the bitmap after sliding by `shift`. */
  function SlidWord(m: Bitmap, shift: nat, i: nat): uint64
    requires i < WINDOW_WORDS
  {
    var src, bits := i - shift / 64, shift % 64;
    if src < 0 then 0
    else if bits != 0 && src - 1 >= 0 then Or(Shl(m[src], bits), Shr(m[src - 1], 64 - bits))
    else Shl(m[src], bits)
  }

  /** Sliding moves the bit of age a - shift to age a. */
  lemma SlidBit(m: Bitmap, shift: nat, i: nat, j: nat)
    requires i < WINDOW_WORDS && j < 64 && shift < WINDOW_SIZE
    ensures Bit(SlidWord(m, shift, i), j) == (64 * i + j >= shift && Has(m, 64 * i + j - shift))
  {
    var src, bits := i - shift / 64, shift % 64;
    if src < 0 {
      ZeroBit(j);
    } else {
      ShlBit(m[src], bits, j);
      var age := 64 * i + j - shift;
      assert age == 64 * src + j - bits;
      if j >= bits {
        assert age / 64 == src && age % 64 == j - bits;
      } else if src >= 1 {
        assert age / 64 == src - 1 && age % 64 == j + 64 - bits;
      }
      if bits != 0 && src >= 1 {
        var low, high := Shl(m[src], bits), Shr(m[src - 1], 64 - bits);
        OrDigit(low, high, j);
        ShrBit(m[src - 1], 64 - bits, j);
        if j >= bits {
          Pow2Of64();
          BitBelow(m[src - 1], 64, j + 64 - bits);
        }
      }
    }
  }

  lemma SlidBits(m: Bitmap, slid: Bitmap, shift: nat)
    requires shift < WINDOW_SIZE && forall k | 0 <= k < WINDOW_WORDS :: slid[k] == SlidWord(m, shift, k)
    ensures forall age: nat | age < WINDOW_SIZE :: Has(slid, age) == (age >= shift && Has(m, age - shift))
  {
    hide SlidWord;
    forall age: nat | age < WINDOW_SIZE
      ensures Has(slid, age) == (age >= shift && Has(m, age - shift))
    {
      SlidBit(m, shift, age / 64, age % 64);
    }
  }

  lemma ZeroBits(m: Bitmap)
    requires forall k | 0 <= k < WINDOW_WORDS :: m[k] == 0
    ensures forall age: nat | age < WINDOW_SIZE :: !Has(m, age)
  {
    forall age: nat | age < WINDOW_SIZE
      ensures !Has(m, age)
    {
      ZeroBit(age % 64);
    }
  }

  class Window {
    var highest: uint64
    var started: bool
    const bitmap: array<uint64>
    /** Every number accepted so far. */
    ghost var accepted: set<uint64>

    ghost predicate Valid()
      reads this, bitmap
    {
      && bitmap.Length == WINDOW_WORDS
      && (started <==> accepted != {})
      && (started ==> IsMax(accepted, highest))
      && forall age: nat | age < WINDOW_SIZE ::
           Has(bitmap[..], age) == (started && age <= highest && highest - age in accepted)
    }

    constructor ()
      ensures Valid() && accepted == {} && fresh(bitmap)
    {
      highest, started, accepted := 0, false, {};
      bitmap := new uint64[WINDOW_WORDS](_ => 0);
      new;
      ZeroBits(bitmap[..]);
    }

    /** Accepts a fresh number and remembers it; a refusal changes nothing. */
    method Check(n: uint64) returns (ok: bool)
      requires Valid()
      modifies this, bitmap
      ensures Valid()
      ensures ok <==> Fresh(old(accepted), n)
      ensures accepted == if ok then old(accepted) + {n} else old(accepted)
      ensures !ok ==> unchanged(this) && unchanged(bitmap)
    {
      if !started {
        started, highest, accepted := true, n, {n};
        Mark(n);
        return true;
      }
      if n > highest {
        var shift := n - highest;
        Slide(shift);
        highest, accepted := n, accepted + {n};
        Mark(n);
        return true;
      } else if n == highest {
        return false;
      } else {
        var age := highest - n;
        if age >= WINDOW_SIZE {
          return false;
        }
        var seen := Seen(n);
        if seen {
          return false;
        }
        accepted := accepted + {n};
        Mark(n);
        return true;
      }
    }

    method Slide(shift: uint64)
      requires bitmap.Length == WINDOW_WORDS
      modifies bitmap
      ensures forall age: nat | age < WINDOW_SIZE ::
                Has(bitmap[..], age) == (age >= shift && Has(old(bitmap[..]), age - shift))
    {
      hide Has, Bit;
      ghost var was := bitmap[..];
      if shift >= WINDOW_SIZE {
        for i := 0 to bitmap.Length
          invariant forall k | 0 <= k < i :: bitmap[k] == 0
        {
          bitmap[i] := 0;
        }
        ZeroBits(bitmap[..]);
        return;
      }
      var words, bits := shift / 64, shift % 64;
      var i := bitmap.Length - 1;
      while i >= 0
        invariant -1 <= i < WINDOW_WORDS
        invariant forall k | 0 <= k <= i :: bitmap[k] == was[k]
        invariant forall k | i < k < WINDOW_WORDS :: bitmap[k] == SlidWord(was, shift, k)
      {
        var src := i - words;
        var v: uint64 := 0;
        if src >= 0 {
          v := Shl(bitmap[src], bits);
          if bits != 0 && src - 1 >= 0 {
            v := Or(v, Shr(bitmap[src - 1], 64 - bits));
          }
        }
        bitmap[i] := v;
        i := i - 1;
      }
      SlidBits(was, bitmap[..], shift);
    }

    method Mark(n: uint64)
      requires bitmap.Length == WINDOW_WORDS && 0 <= highest - n < WINDOW_SIZE
      modifies bitmap
      ensures forall age: nat | age < WINDOW_SIZE ::
                Has(bitmap[..], age) == (Has(old(bitmap[..]), age) || age == highest - n)
    {
      var word, bit := BitIndex(n);
      ghost var was := bitmap[word];
      bitmap[word] := Or(bitmap[word], Shl(1, bit));
      forall j: nat
        ensures Bit(bitmap[word], j) == (Bit(was, j) || j == bit)
      {
        SetBit(was, bit, j);
      }
    }

    method Seen(n: uint64) returns (seen: bool)
      requires bitmap.Length == WINDOW_WORDS && 0 <= highest - n < WINDOW_SIZE
      ensures seen <==> Has(bitmap[..], highest - n)
    {
      var word, bit := BitIndex(n);
      TestBit(bitmap[word], bit);
      seen := AndDigits(bitmap[word], Shl(1, bit)) != 0;
    }

    /** Bit 0 of word 0 is `highest`; older numbers live at higher positions. */
    method BitIndex(n: uint64) returns (word: nat, bit: nat)
      requires 0 <= highest - n < WINDOW_SIZE
      ensures bit < 64 && word < WINDOW_WORDS && 64 * word + bit == highest - n
    {
      var age := highest - n;
      word, bit := age / 64, age % 64;
    }
  }
}
