/** The textual form of a block key (src/api/block_key.cpp), the address of a record on SSD. */
module BlockKeyText {
  import opened Status
  import opened Blocks

  /** The buffer of ToString holds 47 characters and the terminator. */
  const BUFFER_CHARS: nat := 47

  function DigitChar(d: nat): char
    requires d < 16
  {
    if d < 10 then (48 + d) as char else (97 + d - 10) as char
  }

  /** The digit a character denotes; letters count in base 16 only, in either case. */
  function DigitValue(c: char, base: nat): Option<nat> {
    if '0' <= c <= '9' then Some(c as int - 48)
    else if base == 16 && 'a' <= c <= 'f' then Some(c as int - 97 + 10)
    else if base == 16 && 'A' <= c <= 'F' then Some(c as int - 65 + 10)
    else None
  }

  function Hex(n: nat, v: nat): (r: string)
    ensures |r| == n
    ensures ':' !in r
  {
    if n == 0 then "" else Hex(n - 1, v / 16) + [DigitChar(v % 16)]
  }

  function Dec(v: nat): (r: string)
    ensures r != ""
    ensures ':' !in r
  {
    if v < 10 then [DigitChar(v)] else Dec(v / 10) + [DigitChar(v % 10)]
  }

  /** The value of a string of digits, or None if it has another character. */
  function ValueOf(text: string, base: nat): Option<nat> {
    if text == "" then Some(0)
    else
      var high, low := ValueOf(text[..|text| - 1], base), DigitValue(text[|text| - 1], base);
      if high.Some? && low.Some? then Some(high.value * base + low.value) else None
  }

  /** std::from_chars over the whole of a non-empty text, refusing overflow. */
  function ParseUnsigned(text: string, base: nat, max: nat): Option<nat> {
    if text == "" then None
    else if ValueOf(text, base).Some? && ValueOf(text, base).value <= max then ValueOf(text, base)
    else None
  }

  /** The first position of `c` at or after `from`. */
  function Find(s: string, c: char, from: nat): (r: Option<nat>)
    ensures r.Some? ==> from <= r.value < |s| && s[r.value] == c
    ensures r.Some? ==> forall i :: from <= i < r.value ==> s[i] != c
    ensures r.None? ==> forall i :: from <= i < |s| ==> s[i] != c
    decreases |s| - from
  {
    if from >= |s| then None
    else if s[from] == c then Some(from)
    else Find(s, c, from + 1)
  }

  function Format(key: BlockKey): string {
    Hex(16, key.prefixHash) + ":" + Dec(key.prefixLen) + ":" + Dec(key.modelFingerprint)
  }

  /** snprintf into the fixed buffer. */
  function ToString(key: BlockKey): string {
    if |Format(key)| <= BUFFER_CHARS then Format(key) else Format(key)[..BUFFER_CHARS]
  }

  function FromString(s: string): Result<BlockKey> {
    var first := Find(s, ':', 0);
    if first != Some(16) then Failure(Corruption)
    else
      var second := Find(s, ':', 17);
      if second.None? || Find(s, ':', second.value + 1).Some? then Failure(Corruption)
      else
        var hash := ParseUnsigned(s[..16], 16, TWO_64 - 1);
        var len := ParseUnsigned(s[17..second.value], 10, TWO_32 - 1);
        var model := ParseUnsigned(s[second.value + 1..], 10, TWO_32 - 1);
        if hash.None? || len.None? || model.None? then Failure(Corruption)
        else
          var key := BlockKey(hash.value, len.value, model.value);
          if ToString(key) != s then Failure(Corruption) else Success(key)
  }

  function Pow16(n: nat): nat {
    if n == 0 then 1 else 16 * Pow16(n - 1)
  }

  lemma {:induction false} HexValue(n: nat, v: nat)
    requires v < Pow16(n)
    ensures ValueOf(Hex(n, v), 16) == Some(v)
  {
    if n > 0 {
      HexValue(n - 1, v / 16);
      assert Hex(n, v)[..n - 1] == Hex(n - 1, v / 16);
    }
  }

  lemma {:induction false} DecValue(v: nat)
    ensures ValueOf(Dec(v), 10) == Some(v)
  {
    if v < 10 {
      assert [DigitChar(v)][..0] == "";
    } else {
      DecValue(v / 10);
      assert Dec(v)[..|Dec(v)| - 1] == Dec(v / 10);
    }
  }

  lemma Pow16Is64Bits()
    ensures Pow16(16) == TWO_64
  {
    assert Pow16(4) == 0x1_0000;
    assert Pow16(8) == 16 * (16 * (16 * (16 * Pow16(4))));
    assert Pow16(12) == 16 * (16 * (16 * (16 * Pow16(8))));
    assert Pow16(16) == 16 * (16 * (16 * (16 * Pow16(12))));
  }

  function Pow10(n: nat): nat {
    if n == 0 then 1 else 10 * Pow10(n - 1)
  }

  lemma {:induction false} DecLength(v: nat, n: nat)
    requires 1 <= n && v < Pow10(n)
    ensures |Dec(v)| <= n
  {
    if v >= 10 {
      assert Pow10(0) == 1 && Pow10(1) == 10;
      DecLength(v / 10, n - 1);
    }
  }

  /** The longest key fits the buffer, so nothing is ever cut off. */
  lemma NeverTruncated(key: BlockKey)
    ensures |Format(key)| <= 38
    ensures ToString(key) == Format(key)
  {
    assert Pow10(5) == 100000;
    assert Pow10(10) == 10 * (10 * (10 * (10 * (10 * Pow10(5)))));
    DecLength(key.prefixLen, 10);
    DecLength(key.modelFingerprint, 10);
  }

  lemma FindAt(s: string, c: char, from: nat, i: nat)
    requires from <= i < |s| && s[i] == c
    requires forall j :: from <= j < i ==> s[j] != c
    ensures Find(s, c, from) == Some(i)
  {
  }

  /** The two colons of a printed key delimit its three numbers. */
  lemma Separators(hash: string, len: string, model: string)
    requires |hash| == 16 && ':' !in hash && ':' !in len && ':' !in model
    ensures var s, second := hash + ":" + len + ":" + model, 17 + |len|;
            && Find(s, ':', 0) == Some(16) && Find(s, ':', 17) == Some(second)
            && Find(s, ':', second + 1) == None
            && s[..16] == hash && s[17..second] == len && s[second + 1..] == model
  {
    var s, second := hash + ":" + len + ":" + model, 17 + |len|;
    assert s[16] == ':' && s[second] == ':';
    assert forall j :: 0 <= j < 16 ==> s[j] == hash[j];
    assert forall j :: 17 <= j < second ==> s[j] == len[j - 17];
    assert forall j :: second < j < |s| ==> s[j] == model[j - second - 1];
    FindAt(s, ':', 0, 16);
    FindAt(s, ':', 17, second);
  }

  lemma FromStringToString(key: BlockKey)
    ensures FromString(ToString(key)) == Success(key)
  {
    NeverTruncated(key);
    Separators(Hex(16, key.prefixHash), Dec(key.prefixLen), Dec(key.modelFingerprint));
    Pow16Is64Bits();
    HexValue(16, key.prefixHash);
    DecValue(key.prefixLen);
    DecValue(key.modelFingerprint);
  }

  /** Parsing accepts exactly the image of printing, and inverts it. */
  lemma Canonical(s: string, key: BlockKey)
    ensures FromString(s) == Success(key) <==> s == ToString(key)
  {
    FromStringToString(key);
  }

  /** Two keys never share an address. */
  lemma ToStringInjective(a: BlockKey, b: BlockKey)
    requires ToString(a) == ToString(b)
    ensures a == b
  {
    FromStringToString(a);
    FromStringToString(b);
  }
}
