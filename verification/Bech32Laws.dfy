/** What the encoder, the decoder and the checksum promise together. */
module Bech32Laws {
  import opened Bech32Checksum
  import opened Bech32

  lemma WideSplits(s: seq<Byte>, t: seq<Byte>)
    ensures Wide(s + t) == Wide(s) + Wide(t)
  {
  }

  lemma WideGroups(s: seq<Byte>)
    requires AllGroups(s)
    ensures AreGroups(Wide(s))
  {
    forall i | 0 <= i < |s| ensures Wide(s)[i] < 32 {
      assert IsGroup(s[i]);
    }
  }

  lemma WideIsInjective(s: seq<Byte>, t: seq<Byte>)
    requires Wide(s) == Wide(t)
    ensures s == t
  {
    forall i | 0 <= i < |s| ensures s[i] == t[i] {
      assert Wide(s)[i] == Wide(t)[i];
    }
  }

  /** Two valid strings of groups never differ in at most six neighbouring places only. */
  lemma BurstBreaksChecksum(hrp: Text, s: seq<Byte>, t: seq<Byte>, lo: nat, hi: nat)
    requires |s| == |t| && lo <= hi <= |s| && hi - lo <= 6 && AllGroups(s) && AllGroups(t)
    requires s[..lo] == t[..lo] && s[hi..] == t[hi..]
    requires HasChecksum(hrp, s) && HasChecksum(hrp, t)
    ensures s == t
  {
    hide Fold, AreBytes, AreGroups, AllGroups, Expanded, Wide;
    var window, window' := Wide(s[lo..hi]), Wide(t[lo..hi]);
    var before, after := Expanded(hrp) + Wide(s[..lo]), Wide(s[hi..]);
    InThree(Expanded(hrp), s, lo, hi);
    InThree(Expanded(hrp), t, lo, hi);
    GroupsOfPart(s, lo, hi);
    GroupsOfPart(t, lo, hi);
    BytesConcatenate(Expanded(hrp), Wide(s[..lo]));
    if window != window' {
      BurstIsDetected(1, before, window, window', after);
    }
    WideIsInjective(s[lo..hi], t[lo..hi]);
    PartsDetermine(s, t, lo, hi);
  }

  lemma GroupsOfPart(s: seq<Byte>, lo: nat, hi: nat)
    requires lo <= hi <= |s| && AllGroups(s)
    ensures AreGroups(Wide(s[lo..hi]))
  {
    assert AllGroups(s[lo..hi]);
    WideGroups(s[lo..hi]);
  }

  lemma PartsDetermine(s: seq<Byte>, t: seq<Byte>, lo: nat, hi: nat)
    requires |s| == |t| && lo <= hi <= |s|
    requires s[..lo] == t[..lo] && s[lo..hi] == t[lo..hi] && s[hi..] == t[hi..]
    ensures s == t
  {
    assert s == s[..lo] + s[lo..hi] + s[hi..] && t == t[..lo] + t[lo..hi] + t[hi..];
  }

  lemma BytesConcatenate(s: seq<Word>, t: seq<Word>)
    requires AreBytes(s) && AreBytes(t)
    ensures AreBytes(s + t)
  {
  }

  lemma InThree(before: seq<Word>, s: seq<Byte>, lo: nat, hi: nat)
    requires lo <= hi <= |s|
    ensures before + Wide(s) == before + Wide(s[..lo]) + Wide(s[lo..hi]) + Wide(s[hi..])
  {
    hide Wide, AreBytes;
    var x, y, z := s[..lo], s[lo..hi], s[hi..];
    assert s == x + y + z;
    WideSplits(x + y, z);
    WideSplits(x, y);
    ConcatenationGroups(before, Wide(x), Wide(y), Wide(z));
  }

  lemma ConcatenationGroups(a: seq<Word>, b: seq<Word>, c: seq<Word>, d: seq<Word>)
    ensures a + (b + c + d) == a + b + c + d
  {
  }

  /** There is one text for each human-readable part and data: the checksum is determined. */
  lemma EncodingIsUnique(hrp: Text, data: seq<Byte>, a: Text, b: Text)
    requires IsEncoding(a, hrp, data) && IsEncoding(b, hrp, data)
    ensures a == b
  {
    hide HasChecksum, Symbol, IsGroup;
    var n := |hrp| + 1;
    var s :| Spells(s, a[n..]) && s[..|data|] == data && HasChecksum(hrp, s);
    var t :| Spells(t, b[n..]) && t[..|data|] == data && HasChecksum(hrp, t);
    BurstBreaksChecksum(hrp, s, t, |data|, |s|);
    assert a[n..] == b[n..];
    assert a == a[..|hrp|] + [a[|hrp|]] + a[n..] && b == b[..|hrp|] + [b[|hrp|]] + b[n..];
  }

  lemma EncodingDetermines(text: Text, hrp: Text, data: seq<Byte>, hrp': Text, data': seq<Byte>)
    requires IsEncoding(text, hrp, data) && IsEncoding(text, hrp', data')
    ensures hrp == hrp' && data == data'
  {
    hide HasChecksum, Symbol, IsGroup, AllGroups;
    SeparatorIsLast(text);
    var s :| Spells(s, text[|hrp| + 1..]) && s[..|data|] == data;
    var t :| Spells(t, text[|hrp| + 1..]) && t[..|data'|] == data';
    SpelledIsUnique(s, t, text[|hrp| + 1..]);
  }

  /** A decoder of accepted strings has no choice. */
  lemma AcceptedIsUnique(text: Text, hrp: Text, data: seq<Byte>, hrp': Text, data': seq<Byte>)
    requires Accepts(text, hrp, data) && Accepts(text, hrp', data')
    ensures hrp == hrp' && data == data'
  {
    hide IsEncoding, IsWellFormed;
    EncodingDetermines(Lower(text), hrp, data, hrp', data');
  }

  ghost predicate IsLowercaseHrp(hrp: Text) {
    hrp != [] && AllPrintable(hrp) && Lower(hrp) == hrp
  }

  /** Every encoding of a total length of 8 to 90 under a lowercase part is decoded to what was encoded. */
  lemma EncodingIsAccepted(text: Text, hrp: Text, data: seq<Byte>)
    requires IsEncoding(text, hrp, data) && IsLowercaseHrp(hrp) && 8 <= |text| <= 90
    ensures Accepts(text, hrp, data)
  {
    hide HasChecksum, Symbol, IsPrintable, ToUpper, ToLower;
    var n := |hrp| + 1;
    var full :| Spells(full, text[n..]);
    SpelledText(full, text[n..]);
    SeparatorIsLowercase();
    forall i | 0 <= i < |text| ensures IsPrintable(text[i]) && ToLower(text[i]) == text[i] {
      if i < |hrp| {
        assert text[i] == hrp[i] == Lower(hrp)[i];
      } else if i > |hrp| {
        assert text[i] == text[n..][i - n];
      }
    }
    assert Lower(text) == text;
  }

  lemma SeparatorIsLowercase()
    ensures IsPrintable(SEPARATOR) && ToLower(SEPARATOR) == SEPARATOR
  {
  }

  /** Encoding what a string was decoded to gives the string back, in lower case. */
  lemma DecodingIsReencoded(text: Text, hrp: Text, data: seq<Byte>, again: Text)
    requires Accepts(text, hrp, data) && IsEncoding(again, hrp, data)
    ensures again == Lower(text)
  {
    hide IsEncoding;
    EncodingIsUnique(hrp, data, again, Lower(text));
  }

  /** The two texts have the same letters, except at the places from lo to hi. */
  ghost predicate DifferWithin(a: Text, b: Text, lo: nat, hi: nat) {
    |a| == |b| && lo <= hi <= |a| && a[..lo] == b[..lo] && a[hi..] == b[hi..] && a != b
  }

  /**
   * A valid string with any change within six neighbouring data characters is invalid,
   * unless the change moves the separator.
   */
  lemma TamperingIsRejected(text: Text, hrp: Text, data: seq<Byte>, bad: Text, lo: nat, hi: nat)
    requires Accepts(text, hrp, data)
    requires |hrp| < lo && hi - lo <= 6 && DifferWithin(Lower(text), Lower(bad), lo, hi)
    requires SEPARATOR !in Lower(bad)[lo..hi]
    ensures forall hrp', data' :: !Accepts(bad, hrp', data')
  {
    hide HasChecksum, Symbol, IsGroup, IsWellFormed, IsEncoding;
    forall hrp', data' | Accepts(bad, hrp', data') ensures false {
      SameTextWithin(Lower(text), hrp, data, Lower(bad), hrp', data', lo, hi);
    }
  }

  lemma SameTextWithin(
    a: Text, hrp: Text, data: seq<Byte>, b: Text, hrp': Text, data': seq<Byte>, lo: nat, hi: nat)
    requires IsEncoding(a, hrp, data) && IsEncoding(b, hrp', data')
    requires |hrp| < lo <= hi <= |a| == |b| && hi - lo <= 6
    requires a[..lo] == b[..lo] && a[hi..] == b[hi..] && SEPARATOR !in b[lo..hi]
    ensures a == b
  {
    hide HasChecksum, Symbol, IsGroup;
    SameSeparator(a, hrp, data, b, hrp', data', lo, hi);
    var n := |hrp| + 1;
    var s :| Spells(s, a[n..]) && s[..|data|] == data && HasChecksum(hrp, s);
    var t :| Spells(t, b[n..]) && t[..|data'|] == data' && HasChecksum(hrp, t);
    SpelledPart(s, t, a[n..], b[n..], 0, lo - n);
    assert a[n..][hi - n..|s|] == a[hi..] == b[hi..] == b[n..][hi - n..|s|];
    SpelledPart(s, t, a[n..], b[n..], hi - n, |s|);
    assert s[..lo - n] == s[0..lo - n] == t[0..lo - n] == t[..lo - n];
    assert s[hi - n..] == s[hi - n..|s|] == t[hi - n..|s|] == t[hi - n..];
    BurstBreaksChecksum(hrp, s, t, lo - n, hi - n);
    assert a[n..] == b[n..];
    assert a == a[..n] + a[n..] && b == b[..n] + b[n..];
    assert a[..n] == a[..lo][..n] == b[..n];
  }

  lemma SameSeparator(
    a: Text, hrp: Text, data: seq<Byte>, b: Text, hrp': Text, data': seq<Byte>, lo: nat, hi: nat)
    requires IsEncoding(a, hrp, data) && IsEncoding(b, hrp', data')
    requires |hrp| < lo <= hi <= |a| == |b|
    requires a[..lo] == b[..lo] && a[hi..] == b[hi..] && SEPARATOR !in b[lo..hi]
    ensures hrp == hrp'
  {
    hide HasChecksum, Symbol, IsGroup, Spells;
    SeparatorIsLast(a);
    SeparatorIsLast(b);
    assert b[|hrp|] == b[..lo][|hrp|] == a[|hrp|];
    forall k | |hrp| < k < |b| ensures b[k] != SEPARATOR {
      if k < lo {
        assert b[k] == b[..lo][k] == a[k];
      } else if k < hi {
        assert b[k] == b[lo..hi][k - lo];
      } else {
        assert b[k] == b[hi..][k - hi] == a[k];
      }
    }
    assert hrp' == b[..lo][..|hrp|] == hrp;
  }

  lemma SpelledPart(s: seq<Byte>, t: seq<Byte>, a: Text, b: Text, lo: nat, hi: nat)
    requires Spells(s, a) && Spells(t, b) && lo <= hi <= |a| == |b| && a[lo..hi] == b[lo..hi]
    ensures s[lo..hi] == t[lo..hi]
  {
    hide Symbol, IsGroup;
    forall i | lo <= i < hi ensures s[i] == t[i] {
      assert a[i] == a[lo..hi][i - lo] == b[i];
      CharsetIsInjective(s[i], t[i]);
    }
  }

  /** Changing one data character to another one of the character set is always noticed. */
  lemma SubstitutionIsRejected(text: Text, hrp: Text, data: seq<Byte>, i: nat, c: Byte, bad: Text)
    requires Accepts(text, hrp, data) && |hrp| < i < |text| && bad == text[i := c]
    requires InCharset(c) && c != ToLower(text[i])
    ensures forall hrp', data' :: !Accepts(bad, hrp', data')
  {
    hide HasChecksum, Symbol, IsGroup, IsWellFormed, IsEncoding, ToLower;
    var b :| IsGroup(b) && Symbol(b) == c;
    CharsetIsLowercase(b);
    var was, now := Lower(text), Lower(bad);
    assert was[i] != now[i];
    assert was[..i] == now[..i] && was[i + 1..] == now[i + 1..];
    TamperingIsRejected(text, hrp, data, bad, i, i + 1);
  }

  /** Encoding and decoding again. */
  method RoundTrip(hrp: Text, data: seq<Byte>) returns (r: Result<Decoded>)
    requires IsLowercaseHrp(hrp) && AllGroups(data) && 8 <= |hrp| + 7 + |data| <= 90
    ensures r == Ok(Decoded(hrp, data))
  {
    hide IsLowercaseHrp, IsWellFormed, AllGroups, HasChecksum;
    var text := Encode(hrp, data);
    EncodingIsAccepted(text.value, hrp, data);
    r := Decode(text.value);
    AcceptedIsUnique(text.value, hrp, data, r.value.hrp, r.value.data);
  }
}
