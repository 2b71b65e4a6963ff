/** Numbers as bytes, the most significant first, and bytes in their order. */
module ByteOrder {
  import opened Utf8

  const TWO_64: int := 0x1_0000_0000_0000_0000

  /** An argument without its last bytes. */
  function Shifted(argument: nat, bytes: nat): nat {
    if bytes == 0 then argument else Shifted(argument / 256, bytes - 1)
  }

  /** The low bytes of an argument, the most significant first. */
  function BigEndian(argument: nat, size: nat): (b: Bytes)
    ensures |b| == size
  {
    if size == 0 then [] else BigEndian(argument / 256, size - 1) + [argument % 256]
  }

  /** The argument that bytes stand for, the most significant first. */
  function FromBigEndian(b: Bytes): nat {
    if b == [] then 0 else 256 * FromBigEndian(b[..|b| - 1]) + b[|b| - 1]
  }

  function Power256(n: nat): nat {
    if n == 0 then 1 else 256 * Power256(n - 1)
  }

  lemma Powers256()
    ensures Power256(1) == 0x100 && Power256(2) == 0x1_0000 && Power256(4) == 0x1_0000_0000 && Power256(8) == TWO_64
  {
    assert Power256(4) == 0x1_0000_0000;
    assert Power256(6) == 0x1_0000_0000_0000;
  }

  lemma {:induction false} BigEndianRoundTrip(argument: nat, size: nat)
    requires argument < Power256(size)
    ensures FromBigEndian(BigEndian(argument, size)) == argument
  {
    if size > 0 {
      BigEndianRoundTrip(argument / 256, size - 1);
      assert BigEndian(argument, size)[..size - 1] == BigEndian(argument / 256, size - 1);
    }
  }

  lemma {:induction false} FromBigEndianBound(b: Bytes)
    ensures FromBigEndian(b) < Power256(|b|)
  {
    if b != [] {
      FromBigEndianBound(b[..|b| - 1]);
    }
  }

  lemma {:induction false} BigEndianAt(argument: nat, size: nat, k: nat)
    requires k < size
    ensures BigEndian(argument, size)[k] == Shifted(argument, size - 1 - k) % 256
  {
    if k < size - 1 {
      BigEndianAt(argument / 256, size - 1, k);
    }
  }

  /** What one, two, four or eight bytes stand for. */
  lemma DigitsOf(bytes: Bytes)
    ensures var b: seq<int> := bytes;
            && (|b| == 1 ==> FromBigEndian(bytes) == b[0])
            && (|b| == 2 ==> FromBigEndian(bytes) == 0x100 * b[0] + b[1])
            && (|b| == 4 ==> FromBigEndian(bytes) == 0x100_0000 * b[0] + 0x1_0000 * b[1] + 0x100 * b[2] + b[3])
            && (|b| == 8 ==>
                  FromBigEndian(bytes) == 0x100_0000_0000_0000 * b[0] + 0x1_0000_0000_0000 * b[1]
                                          + 0x100_0000_0000 * b[2] + 0x1_0000_0000 * b[3]
                                          + 0x100_0000 * b[4] + 0x1_0000 * b[5] + 0x100 * b[6] + b[7])
  {
    hide FromBigEndian;
    NoDigits();
    if |bytes| == 8 {
      EightDigits(bytes);
    } else if |bytes| == 4 {
      FourDigits(bytes);
    } else if |bytes| >= 1 {
      LastDigit(bytes, 1);
      assert |bytes| == 1 ==> bytes[..1] == bytes;
      if |bytes| == 2 {
        LastDigit(bytes, 2);
        assert bytes[..2] == bytes;
      }
    }
  }

  lemma LastDigit(b: Bytes, n: nat)
    requires 0 < n <= |b|
    ensures FromBigEndian(b[..n]) == 256 * FromBigEndian(b[..n - 1]) + b[n - 1]
  {
    assert b[..n][..n - 1] == b[..n - 1];
  }

  lemma NoDigits()
    ensures FromBigEndian([]) == 0
  {
  }

  lemma EightDigits(bytes: Bytes)
    requires |bytes| == 8
    ensures var b: seq<int> := bytes;
            FromBigEndian(bytes)
            == 0x100_0000_0000_0000 * b[0] + 0x1_0000_0000_0000 * b[1] + 0x100_0000_0000 * b[2]
               + 0x1_0000_0000 * b[3] + 0x100_0000 * b[4] + 0x1_0000 * b[5] + 0x100 * b[6] + b[7]
  {
    hide FromBigEndian;
    FourDigits(bytes[..4]);
    LastDigit(bytes, 5);
    LastDigit(bytes, 6);
    LastDigit(bytes, 7);
    LastDigit(bytes, 8);
    assert bytes[..8] == bytes;
  }

  lemma FourDigits(bytes: Bytes)
    requires |bytes| == 4
    ensures var b: seq<int> := bytes;
            FromBigEndian(bytes) == 0x100_0000 * b[0] + 0x1_0000 * b[1] + 0x100 * b[2] + b[3]
  {
    LastDigit(bytes, 1);
    LastDigit(bytes, 2);
    LastDigit(bytes, 3);
    LastDigit(bytes, 4);
    assert bytes[..4] == bytes;
  }

  // ----- the order of bytes -----

  /** bytes.Compare(a, b) < 0. */
  predicate Below(a: Bytes, b: Bytes) {
    |b| > 0 && (|a| == 0 || a[0] < b[0] || (a[0] == b[0] && Below(a[1..], b[1..])))
  }

  lemma {:induction false} BelowIsTotal(a: Bytes, b: Bytes)
    ensures a == b || Below(a, b) || Below(b, a)
    ensures Below(a, b) ==> a != b && !Below(b, a)
  {
    if |a| > 0 && |b| > 0 {
      BelowIsTotal(a[1..], b[1..]);
      assert a == [a[0]] + a[1..] && b == [b[0]] + b[1..];
    }
  }

  lemma {:induction false} BelowIsTransitive(a: Bytes, b: Bytes, c: Bytes)
    requires Below(a, b) && Below(b, c)
    ensures Below(a, c)
  {
    if |a| > 0 && a[0] == b[0] == c[0] {
      BelowIsTransitive(a[1..], b[1..], c[1..]);
    }
  }

  /** One begins the other and is shorter, or they differ first where the one has the lower byte. */
  ghost predicate Precedes(a: Bytes, b: Bytes) {
    a < b || exists k :: 0 <= k < |a| && k < |b| && a[..k] == b[..k] && a[k] < b[k]
  }

  lemma {:induction false} BelowPrecedes(a: Bytes, b: Bytes)
    requires Below(a, b)
    ensures Precedes(a, b)
  {
    if |a| > 0 && a[0] == b[0] {
      var x, y := a[1..], b[1..];
      BelowPrecedes(x, y);
      assert a == [a[0]] + x && b == [b[0]] + y;
      if !(x < y) {
        var k :| 0 <= k < |x| && k < |y| && x[..k] == y[..k] && x[k] < y[k];
        assert a[..k + 1] == [a[0]] + x[..k] && b[..k + 1] == [b[0]] + y[..k];
        assert a[k + 1] < b[k + 1];
      }
    } else if |a| > 0 {
      assert a[..0] == b[..0] && a[0] < b[0];
    }
  }

  /** What is the same at first does not matter. */
  lemma {:induction false} DiffersLater(a: Bytes, b: Bytes, k: nat)
    requires k <= |a| && k <= |b| && a[..k] == b[..k]
    requires |b| > k && (|a| == k || a[k] < b[k])
    ensures Below(a, b)
    decreases k
  {
    if k > 0 {
      var x, y := a[1..], b[1..];
      assert a[..k][0] == a[0] && b[..k][0] == b[0];
      assert x[..k - 1] == a[..k][1..] && y[..k - 1] == b[..k][1..];
      DiffersLater(x, y, k - 1);
    }
  }

  lemma BelowIff(a: Bytes, b: Bytes)
    ensures Below(a, b) <==> Precedes(a, b)
  {
    hide Below;
    if Below(a, b) {
      BelowPrecedes(a, b);
    }
    if a < b {
      assert a[..|a|] == a == b[..|a|];
      DiffersLater(a, b, |a|);
    } else if Precedes(a, b) {
      var k :| 0 <= k < |a| && k < |b| && a[..k] == b[..k] && a[k] < b[k];
      DiffersLater(a, b, k);
    }
  }

  // ----- bytes within bytes -----

  /** The bytes at an offset. */
  ghost predicate At(data: Bytes, offset: nat, part: Bytes) {
    offset + |part| <= |data| && data[offset..offset + |part|] == part
  }

  lemma AtSplit(data: Bytes, offset: nat, a: Bytes, b: Bytes)
    requires At(data, offset, a + b)
    ensures At(data, offset, a) && At(data, offset + |a|, b)
  {
    assert data[offset..offset + |a|] == (a + b)[..|a|] == a;
    assert data[offset + |a|..offset + |a| + |b|] == (a + b)[|a|..] == b;
  }
}
