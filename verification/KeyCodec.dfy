// Log indices as store keys: decimal, zero-padded to ten characters.
module KeyCodec {
  import opened Wrappers
  import opened ByteOrder

  const ENTRY_KEY_LENGTH: nat := 10
  const KEY_BOUND: nat := 10_000_000_000
  const U64_BOUND: nat := 0x1_0000_0000_0000_0000

  type u64 = n: nat | n < 0x1_0000_0000_0000_0000

  function Digit(d: nat): char
    requires d < 10
  {
    '0' + d as char
  }

  // The text of a number, as `to_string` writes it.
  function Decimal(n: nat): (s: string)
    ensures |s| > 0
  {
    if n < 10 then [Digit(n)] else Decimal(n / 10) + [Digit(n % 10)]
  }

  function Zeros(k: nat): (s: string)
    ensures |s| == k
  {
    seq(k, _ => '0')
  }

  // The `{:0width$}` format: zeros on the left up to the width, never a truncation.
  function Padded(n: nat, width: nat): string {
    var s := Decimal(n);
    if |s| < width then Zeros(width - |s|) + s else s
  }

  function EntryKey(n: nat): string {
    Padded(n, ENTRY_KEY_LENGTH)
  }

  function ParseDigits(s: string): Option<nat> {
    if |s| == 0 then Some(0)
    else
      var c := s[|s| - 1];
      match ParseDigits(s[..|s| - 1])
      case Some(v) => if '0' <= c <= '9' then Some(10 * v + (c - '0') as nat) else None
      case None => None
  }

  // `str::parse::<u64>`: an optional plus sign, at least one digit, nothing else, no overflow.
  function ParseU64(s: string): Option<u64> {
    var body := if |s| > 1 && s[0] == '+' then s[1..] else s;
    if |body| == 0 then None
    else
      match ParseDigits(body)
      case Some(v) => if v < U64_BOUND then Some(v) else None
      case None => None
  }

  // Parse, then pad.  None stands for the panic on unparsable text.
  function FormatEntryKeyString(entryKey: string): Option<string> {
    match ParseU64(entryKey)
    case Some(n) => Some(EntryKey(n))
    case None => None
  }

  function Pow10(k: nat): (p: nat)
    ensures p > 0
  {
    if k == 0 then 1 else 10 * Pow10(k - 1)
  }

  // Exactly w digits, most significant first.
  function Fixed(n: nat, w: nat): (s: string)
    ensures |s| == w
  {
    if w == 0 then [] else Fixed(n / 10, w - 1) + [Digit(n % 10)]
  }

  lemma {:induction false} DecimalIsFixed(n: nat)
    ensures Decimal(n) == Fixed(n, |Decimal(n)|)
    ensures n < Pow10(|Decimal(n)|)
    ensures n >= 10 ==> Pow10(|Decimal(n)| - 1) <= n
  {
    if n < 10 {
      assert Fixed(n, 1) == Fixed(n / 10, 0) + [Digit(n % 10)];
      assert Pow10(1) == 10 * Pow10(0);
    } else {
      DecimalIsFixed(n / 10);
      var k := |Decimal(n / 10)|;
      assert Decimal(n)[..k] == Decimal(n / 10);
      assert |Decimal(n)| == k + 1;
      assert Pow10(k + 1) == 10 * Pow10(k);
      if n / 10 < 10 {
        assert k == 1 && Pow10(1) == 10 * Pow10(0);
      } else {
        assert Pow10(k) == 10 * Pow10(k - 1);
      }
    }
  }

  lemma {:induction false} FixedOfZero(w: nat)
    ensures Fixed(0, w) == Zeros(w)
  {
    if w > 0 {
      FixedOfZero(w - 1);
      assert Zeros(w) == Zeros(w - 1) + ['0'];
    }
  }

  // Padding with zeros is writing more digits of the same number.
  lemma {:induction false} ZerosThenFixed(n: nat, k: nat, w: nat)
    requires n < Pow10(k)
    ensures Zeros(w) + Fixed(n, k) == Fixed(n, w + k)
  {
    if k == 0 {
      FixedOfZero(w);
      assert Zeros(w) + Fixed(n, 0) == Zeros(w);
    } else {
      assert Pow10(k) == 10 * Pow10(k - 1);
      ZerosThenFixed(n / 10, k - 1, w);
      assert Zeros(w) + (Fixed(n / 10, k - 1) + [Digit(n % 10)])
          == (Zeros(w) + Fixed(n / 10, k - 1)) + [Digit(n % 10)];
    }
  }

  lemma {:induction false} Pow10Monotone(a: nat, b: nat)
    requires a <= b
    ensures Pow10(a) <= Pow10(b)
  {
    if a < b {
      Pow10Monotone(a, b - 1);
    }
  }

  lemma EntryKeyIsFixed(n: nat)
    ensures EntryKey(n) == Fixed(n, |EntryKey(n)|)
    ensures n < Pow10(|EntryKey(n)|) && |EntryKey(n)| >= 10
  {
    DecimalIsFixed(n);
    var k := |Decimal(n)|;
    if k < 10 {
      ZerosThenFixed(n, k, 10 - k);
      Pow10Monotone(k, 10);
    }
  }

  lemma Pow10Of10()
    ensures Pow10(10) == KEY_BOUND
  {
    assert Pow10(5) == 100_000;
    assert Pow10(10) == 10 * (10 * (10 * (10 * (10 * Pow10(5)))));
  }

  // Below the bound every key is exactly ten characters; from the bound on it is longer.
  lemma EntryKeyLength(n: nat)
    ensures n < KEY_BOUND <==> |EntryKey(n)| == ENTRY_KEY_LENGTH
  {
    DecimalIsFixed(n);
    Pow10Of10();
    var k := |Decimal(n)|;
    if n < KEY_BOUND {
      if k > 10 {
        Pow10Monotone(10, k - 1);
      }
    } else if k <= 10 {
      Pow10Monotone(k, 10);
    }
  }

  lemma {:induction false} ParseFixed(n: nat, w: nat)
    requires n < Pow10(w)
    ensures ParseDigits(Fixed(n, w)) == Some(n)
  {
    if w > 0 {
      assert Pow10(w) == 10 * Pow10(w - 1);
      ParseFixed(n / 10, w - 1);
      var s := Fixed(n, w);
      assert s[..w - 1] == Fixed(n / 10, w - 1);
    }
  }

  lemma {:induction false} FixedHasDigits(n: nat, w: nat, i: nat)
    requires i < w
    ensures '0' <= Fixed(n, w)[i] <= '9'
  {
    if i < w - 1 {
      FixedHasDigits(n / 10, w - 1, i);
    }
  }

  lemma ParseU64OfDigits(s: string, n: u64)
    requires |s| > 0 && '0' <= s[0] <= '9' && ParseDigits(s) == Some(n)
    ensures ParseU64(s) == Some(n)
  {
  }

  // Reading back what was written, with and without padding.
  lemma ParseAfterFormat(n: u64)
    ensures ParseU64(Decimal(n)) == Some(n)
    ensures ParseU64(EntryKey(n)) == Some(n)
  {
    ParseAfterFixed(n, Decimal(n)) by {
      DecimalIsFixed(n);
    }
    ParseAfterFixed(n, EntryKey(n)) by {
      EntryKeyIsFixed(n);
    }
  }

  lemma ParseAfterFixed(n: u64, s: string)
    requires |s| > 0 && s == Fixed(n, |s|) && n < Pow10(|s|)
    ensures ParseU64(s) == Some(n)
  {
    ParseFixed(n, |s|);
    FixedHasDigits(n, |s|, 0);
    ParseU64OfDigits(s, n);
  }

  // Formatting a formatted key changes nothing, for every text the formatter accepts.
  lemma FormatIdempotent(s: string)
    requires FormatEntryKeyString(s).Some?
    ensures FormatEntryKeyString(FormatEntryKeyString(s).value) == FormatEntryKeyString(s)
  {
    ParseAfterFormat(ParseU64(s).value);
  }

  lemma FormatOfDecimal(n: u64)
    ensures FormatEntryKeyString(Decimal(n)) == Some(EntryKey(n))
  {
    ParseAfterFormat(n);
  }

  lemma EntryKeyInjective(a: u64, b: u64)
    ensures EntryKey(a) == EntryKey(b) <==> a == b
  {
    ParseAfterFormat(a);
    ParseAfterFormat(b);
  }

  // Keys of one length are ordered as the numbers they write.
  lemma {:induction false} FixedOrder(a: nat, b: nat, w: nat)
    requires a < Pow10(w) && b < Pow10(w)
    ensures Less(Fixed(a, w), Fixed(b, w)) <==> a < b
    ensures Fixed(a, w) == Fixed(b, w) <==> a == b
  {
    if w > 0 {
      assert Pow10(w) == 10 * Pow10(w - 1);
      FixedOrder(a / 10, b / 10, w - 1);
      LessSnoc(Fixed(a / 10, w - 1), Digit(a % 10), Fixed(b / 10, w - 1), Digit(b % 10));
      ParseFixed(a, w);
      ParseFixed(b, w);
    }
  }

  // A number without its last d digits.
  function DropDigits(n: nat, d: nat): nat {
    if d == 0 then n else DropDigits(n / 10, d - 1)
  }

  lemma {:induction false} FixedSplit(n: nat, w: nat, d: nat)
    ensures |Fixed(n, w + d)| == w + d
    ensures Fixed(n, w + d)[..w] == Fixed(DropDigits(n, d), w)
  {
    if d > 0 {
      FixedSplit(n / 10, w, d - 1);
      assert Fixed(n, w + d)[..w] == Fixed(n / 10, w + (d - 1))[..w];
    }
  }

  lemma {:induction false} DropDigitsFits(n: nat, w: nat, d: nat)
    requires n < Pow10(w + d)
    ensures DropDigits(n, d) < Pow10(w)
  {
    if d > 0 {
      assert Pow10(w + d) == 10 * Pow10(w + (d - 1));
      DropDigitsFits(n / 10, w, d - 1);
    }
  }

  lemma {:induction false} DropDigitsShrinks(n: nat, d: nat)
    ensures DropDigits(n, d) <= n
  {
    if d > 0 {
      DropDigitsShrinks(n / 10, d - 1);
    }
  }

  lemma LargerKeyNotShorter(a: nat, b: nat)
    requires a <= b
    ensures |EntryKey(a)| <= |EntryKey(b)|
  {
    DecimalIsFixed(a);
    DecimalIsFixed(b);
    var k, m := |Decimal(a)|, |Decimal(b)|;
    if k > m {
      Pow10Monotone(m, k - 1);
      assert a < 10 ==> k == 1;
    }
  }

  // Exactly when byte order puts a smaller index first: compare a with as many leading
  // digits of b as a's key has.
  lemma KeyOrderExact(a: nat, b: nat)
    requires a < b
    ensures |EntryKey(a)| <= |EntryKey(b)|
    ensures Less(EntryKey(a), EntryKey(b)) <==> a <= DropDigits(b, |EntryKey(b)| - |EntryKey(a)|)
  {
    LargerKeyNotShorter(a, b);
    EntryKeyIsFixed(a);
    EntryKeyIsFixed(b);
    FixedOrderExact(a, |EntryKey(a)|, b, |EntryKey(b)| - |EntryKey(a)|);
  }

  lemma FixedOrderExact(a: nat, w: nat, b: nat, d: nat)
    requires a < b && a < Pow10(w) && b < Pow10(w + d)
    ensures Less(Fixed(a, w), Fixed(b, w + d)) <==> a <= DropDigits(b, d)
  {
    if d == 0 {
      FixedOrder(a, b, w);
    } else {
      FixedSplit(b, w, d);
      DropDigitsFits(b, w, d);
      var s, q := Fixed(b, w + d), DropDigits(b, d);
      assert s == Fixed(q, w) + s[w..];
      LessPrefix(Fixed(a, w), Fixed(q, w), s[w..]);
      FixedOrder(a, q, w);
    }
  }

  // Below the bound, byte order on keys is numeric order on indices.
  lemma KeyOrder(a: nat, b: nat)
    requires a < KEY_BOUND && b < KEY_BOUND
    ensures Less(EntryKey(a), EntryKey(b)) <==> a < b
    ensures EntryKey(a) == EntryKey(b) <==> a == b
  {
    EntryKeyLength(a);
    EntryKeyLength(b);
    EntryKeyIsFixed(a);
    EntryKeyIsFixed(b);
    FixedOrder(a, b, ENTRY_KEY_LENGTH);
  }

  // The indices below the bound whose keys sort before the key of b are those below Reach(b).
  function Reach(b: nat): (r: nat)
    ensures r <= b
    ensures b < KEY_BOUND ==> r == b
  {
    if b < KEY_BOUND then b
    else
      EntryKeyLength(b);
      EntryKeyIsFixed(b);
      var d := |EntryKey(b)| - ENTRY_KEY_LENGTH;
      DropDigitsShrinks(b / 10, d - 1);
      DropDigits(b, d) + 1
  }

  // A bound of 10^10 reaches no further than 10^9.
  lemma ReachOfBound()
    ensures Reach(KEY_BOUND) == 1_000_000_001
  {
    var b := KEY_BOUND;
    DecimalIsFixed(b);
    EntryKeyLength(b);
    Pow10Of10();
    assert DropDigits(b, 1) == DropDigits(b / 10, 0);
  }

  lemma ReachMeaning(a: nat, b: nat)
    requires a < KEY_BOUND
    ensures Less(EntryKey(a), EntryKey(b)) <==> a < Reach(b)
    ensures EntryKey(a) == EntryKey(b) <==> a == b
    ensures Reach(b) <= KEY_BOUND
  {
    if b < KEY_BOUND {
      KeyOrder(a, b);
    } else {
      EntryKeyLength(a);
      EntryKeyLength(b);
      KeyOrderExact(a, b);
      EntryKeyIsFixed(b);
      Pow10Of10();
      DropDigitsFits(b, ENTRY_KEY_LENGTH, |EntryKey(b)| - ENTRY_KEY_LENGTH);
    }
  }

  ghost predicate OrderedBelow(bound: nat) {
    forall a: nat, b: nat | a < b < bound :: Less(EntryKey(a), EntryKey(b))
  }

  // The bound is tight: one index further and the order is lost.
  lemma KeyOrderBoundIsTight(bound: nat)
    ensures OrderedBelow(bound) <==> bound <= KEY_BOUND
  {
    if bound <= KEY_BOUND {
      forall a: nat, b: nat | a < b < bound ensures Less(EntryKey(a), EntryKey(b)) {
        KeyOrder(a, b);
      }
    } else {
      var a, b := KEY_BOUND - 1, KEY_BOUND;
      KeyOrderExact(a, b);
      EntryKeyLength(a);
      EntryKeyLength(b);
      var d := |EntryKey(b)| - |EntryKey(a)|;
      assert d >= 1;
      DropDigitsShrinks(b / 10, d - 1);
      assert !Less(EntryKey(a), EntryKey(b));
    }
  }
}
