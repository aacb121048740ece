/** Keys and anchors.
    The source compares keys and anchors as byte strings.  The rest of the project works with
    integers: a string stands for its Rank, and RankIsOrder shows that nothing is lost, because
    ranks are ordered and distinct exactly as the strings are. */
module Keys {

  type Byte = b: int | 0 <= b < 256

  type Str = seq<Byte>

  /** Lexicographic order on unsigned bytes, a proper prefix coming first (std::string's operator<;
      on strings of one length also the sign of memcmp). */
  predicate Less(s: Str, t: Str) {
    t != [] && (s == [] || s[0] < t[0] || (s[0] == t[0] && Less(s[1..], t[1..])))
  }

  function Pow257(n: nat): (p: nat)
    ensures p > 0
  {
    if n == 0 then 1 else 257 * Pow257(n - 1)
  }

  /** A leading digit below 257 followed by less than p stays below 257 * p. */
  lemma DigitBound(digit: int, p: int, low: int)
    requires 0 <= digit < 257 && 0 <= low < p
    ensures 0 <= digit * p + low < 257 * p
  {
    assert digit * p <= 256 * p;
  }

  /** The number written by the bytes of s, each raised by one, padded on the right to width
      digits in base 257. */
  function Rank(s: Str, width: nat): (r: int)
    requires |s| <= width
    ensures 0 <= r < Pow257(width)
  {
    if s == [] then 0
    else
      var digit: int := s[0] as int + 1;
      DigitBound(digit, Pow257(width - 1), Rank(s[1..], width - 1));
      digit * Pow257(width - 1) + Rank(s[1..], width - 1)
  }

  /** Two leading digits that differ decide the comparison. */
  lemma LeadingDigit(a: int, b: int, p: int, x: int, y: int)
    requires 0 < p && 0 <= x < p && 0 <= y < p
    requires a < b
    ensures a * p + x < b * p + y
  {
    assert (a + 1) * p <= b * p;
  }

  /** For strings of at most width bytes, comparing ranks is comparing strings. */
  lemma {:induction false} RankIsOrder(s: Str, t: Str, width: nat)
    requires |s| <= width && |t| <= width
    ensures Less(s, t) <==> Rank(s, width) < Rank(t, width)
    ensures s == t <==> Rank(s, width) == Rank(t, width)
  {
    if s != [] && t != [] {
      RankIsOrder(s[1..], t[1..], width - 1);
      var p, x, y := Pow257(width - 1), Rank(s[1..], width - 1), Rank(t[1..], width - 1);
      var a: int, b: int := s[0] as int + 1, t[0] as int + 1;
      assert s == [s[0]] + s[1..] && t == [t[0]] + t[1..];
      if a < b {
        LeadingDigit(a, b, p, x, y);
      } else if b < a {
        LeadingDigit(b, a, p, y, x);
      }
    } else if s != [] {
      FirstNonzero(s, width);
    } else if t != [] {
      FirstNonzero(t, width);
    }
  }

  /** Only the empty string has rank 0. */
  lemma FirstNonzero(s: Str, width: nat)
    requires s != [] && |s| <= width
    ensures Rank(s, width) > 0
  {
    var a: int := s[0] as int + 1;
    LeadingDigit(0, a, Pow257(width - 1), 0, Rank(s[1..], width - 1));
  }

  /** A key or an anchor, given by its rank. */
  type Key = int

  /** The rank given to the anchor of the skip list's head.  The head's anchor is the empty string;
      the source reads it only in `anchor <= member`, which is then always true, so the head may
      stand below every string, the empty one (rank 0) included. */
  const HEAD: Key := -1

  datatype Option<+T> = None | Some(value: T)
}
