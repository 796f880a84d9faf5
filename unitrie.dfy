/** The appender of the UTF-16 trie wrapper (`UnicodeStringSetAppender`)
    as the source writes it. It walks up the parent links collecting code
    units, as `StringSetAppender` does, but then turns the string around
    with ICU's `UnicodeString::reverse()`, which does not simply reverse the
    units: it keeps surrogate pairs together by swapping every trail unit
    followed by a lead unit back. The walked-up string holds its pairs
    trail first, so the swap repairs a lone supplementary character but
    breaks two adjacent ones. */
module UniTrie {
  import opened Unicode
  import Trie

  /** The second pass of `UnicodeString::reverse()`: from the left, a trail
      surrogate followed by a lead surrogate is swapped and both are
      stepped over; any other unit is stepped over alone. */
  function Reswap(s: UString): (r: UString)
    ensures |r| == |s|
    decreases |s|
  {
    if |s| < 2 then s
    else if IsLowSurrogate(s[0]) && IsHighSurrogate(s[1]) then [s[1], s[0]] + Reswap(s[2..])
    else [s[0]] + Reswap(s[1..])
  }

  /** `UnicodeString::reverse()`: the units in reverse order, then the
      second pass when a lead surrogate was among them. */
  function IcuReverse(s: UString): UString {
    var r := Trie.Reversed(s);
    if exists i :: 0 <= i < |r| && IsHighSurrogate(r[i]) then Reswap(r) else r
  }

  /** No trail surrogate is directly followed by a lead surrogate. */
  predicate NoTrailLead(s: UString) {
    forall i :: 0 <= i < |s| - 1 ==> !(IsLowSurrogate(s[i]) && IsHighSurrogate(s[i + 1]))
  }

  /** The second pass leaves a string alone exactly when no trail unit is
      followed by a lead unit. */
  lemma {:induction false} ReswapFixed(s: UString)
    ensures Reswap(s) == s <==> NoTrailLead(s)
    decreases |s|
  {
    if |s| >= 2 {
      if IsLowSurrogate(s[0]) && IsHighSurrogate(s[1]) {
        assert Reswap(s)[0] == s[1] != s[0];
      } else {
        ReswapFixed(s[1..]);
        var t := s[1..];
        if NoTrailLead(s) {
          forall i | 0 <= i < |t| - 1
            ensures !(IsLowSurrogate(t[i]) && IsHighSurrogate(t[i + 1]))
          {
            assert t[i] == s[i + 1] && t[i + 1] == s[i + 2];
          }
        }
        if NoTrailLead(t) {
          forall i | 0 <= i < |s| - 1
            ensures !(IsLowSurrogate(s[i]) && IsHighSurrogate(s[i + 1]))
          {
            if i > 0 {
              assert s[i] == t[i - 1] && s[i + 1] == t[i];
            }
          }
        }
        assert Reswap(s) == [s[0]] + Reswap(t);
        assert s == [s[0]] + t;
      }
    }
  }

  /** Without a lead surrogate the second pass changes nothing, so
      `IcuReverse` always ends with `Reswap`. */
  lemma IcuReverseIsReswap(s: UString)
    ensures IcuReverse(s) == Reswap(Trie.Reversed(s))
  {
    var r := Trie.Reversed(s);
    if !exists i :: 0 <= i < |r| && IsHighSurrogate(r[i]) {
      ReswapFixed(r);
    }
  }

  lemma {:induction false} ReversedCons<T>(x: T, s: seq<T>)
    ensures Trie.Reversed([x] + s) == Trie.Reversed(s) + [x]
    decreases |s|
  {
    if s != [] {
      var init := s[..|s| - 1];
      assert ([x] + s)[..|s|] == [x] + init;
      ReversedCons(x, init);
    }
  }

  lemma {:induction false} ReversedTwice<T>(s: seq<T>)
    ensures Trie.Reversed(Trie.Reversed(s)) == s
    decreases |s|
  {
    if s != [] {
      var init := s[..|s| - 1];
      ReversedCons(s[|s| - 1], Trie.Reversed(init));
      ReversedTwice(init);
      assert s == init + [s[|s| - 1]];
    }
  }

  /** `UnicodeStringSetAppender`, whose output set is `found`. */
  class IcuSetAppender {
    var found: set<UString>

    constructor (init: set<UString>)
      ensures found == init
    {
      found := init;
    }

    /** Walks the parent links up from `node`, then calls `reverse()` on
        what it collected: the node's path with its surrogate pairs swapped
        by the second pass. */
    method Append(ns: seq<Trie.Node<Unit>>, node: int)
      requires Trie.Ordered(ns) && 0 <= node < |ns|
      modifies this
      ensures found == old(found) + {Reswap(Trie.PathTo(ns, node))}
    {
      var str := Trie.WalkedUp(ns, node);
      IcuReverseIsReswap(str);
      ReversedTwice(str);
      str := IcuReverse(str);
      found := found + {str};
    }
  }

  /** No unit of the string is a surrogate. */
  predicate NoSurrogates(s: UString) {
    forall i :: 0 <= i < |s| ==> !IsSurrogate(s[i] as int)
  }

  /** A text of characters below U+10000, every Russian name among them,
      is encoded without surrogates. */
  lemma {:induction false} BmpEncoding(t: string)
    requires forall i :: 0 <= i < |t| ==> (t[i] as int) < 0x1_0000
    ensures NoSurrogates(Utf16(t))
    decreases |t|
  {
    if |t| > 0 {
      BmpEncoding(t[1..]);
      var e, rest := EncodeChar(t[0]), Utf16(t[1..]);
      assert Utf16(t) == e + rest;
      forall i | 0 <= i < |e + rest|
        ensures !IsSurrogate((e + rest)[i] as int)
      {
        if i > 0 {
          assert (e + rest)[i] == rest[i - 1];
        }
      }
    }
  }

  /** For such a text the source's appender reports the stored string. */
  lemma BmpAppendedIsPath(t: string)
    requires forall i :: 0 <= i < |t| ==> (t[i] as int) < 0x1_0000
    ensures Reswap(Utf16(t)) == Utf16(t)
  {
    BmpEncoding(t);
    ReswapFixed(Utf16(t));
  }

  /** "𝔸𝔹" (U+1D538 U+1D539) is stored as D835 DD38 D835 DD39, and the
      source's appender reports D835 D835 DD38 DD39 for it. */
  lemma AdjacentSupplementarySwapped()
    ensures Utf16("𝔸𝔹") == [0xD835, 0xDD38, 0xD835, 0xDD39]
    ensures Reswap([0xD835, 0xDD38, 0xD835, 0xDD39]) == [0xD835, 0xD835, 0xDD38, 0xDD39]
    ensures Reswap(Utf16("𝔸𝔹")) != Utf16("𝔸𝔹")
  {
    var a: UString := [0xD835, 0xDD38];
    var b: UString := [0xD835, 0xDD39];
    assert EncodeChar('𝔸') == a;
    assert EncodeChar('𝔹') == b;
    assert "𝔸𝔹"[1..] == "𝔹";
    assert "𝔹"[1..] == "";
    assert Utf16("𝔹") == b + Utf16("");
    assert Utf16("𝔸𝔹") == a + b;
    var s: UString := [0xD835, 0xDD38, 0xD835, 0xDD39];
    assert s[1..] == [0xDD38, 0xD835, 0xDD39];
    assert s[1..][2..] == [0xDD39];
    assert Reswap(s[1..][2..]) == [0xDD39];
    assert Reswap(s[1..]) == [0xD835, 0xDD38, 0xDD39];
  }
}
