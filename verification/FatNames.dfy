/** 8.3 names: the raw eleven bytes of a directory entry and the text of a name. */
module FatNames {
  import opened Bytes

  const SPACE: Byte := 0x20
  const DOT: Byte := 0x2E

  /** The text before the first dot. */
  function Base(name: seq<Byte>): (b: seq<Byte>)
    ensures b <= name && DOT !in b
    ensures |b| < |name| ==> name[|b|] == DOT
  {
    if name == [] || name[0] == DOT then [] else [name[0]] + Base(name[1..])
  }

  /** The text after the first dot. */
  function Extension(name: seq<Byte>): seq<Byte> {
    var n := |Base(name)|;
    if n < |name| then name[n + 1..] else []
  }

  function Upper(c: Byte): Byte {
    if 0x61 <= c <= 0x7A then c - 0x20 else c
  }

  function UpperAll(s: seq<Byte>): (r: seq<Byte>)
    ensures |r| == |s| && forall i | 0 <= i < |s| :: r[i] == Upper(s[i])
  {
    seq(|s|, i requires 0 <= i < |s| => Upper(s[i]))
  }

  function Spaces(n: nat): (r: seq<Byte>)
    ensures |r| == n && forall i | 0 <= i < n :: r[i] == SPACE
  {
    seq(n, _ => SPACE)
  }

  function Pad(s: seq<Byte>, n: nat): (r: seq<Byte>)
    requires |s| <= n
    ensures |r| == n && s <= r && forall i | |s| <= i < n :: r[i] == SPACE
  {
    s + Spaces(n - |s|)
  }

  /** Names whose encoding stays inside the eleven bytes. */
  predicate Encodable(name: seq<Byte>) {
    |Base(name)| <= 11 && |Extension(name)| <= 3
  }

  /** What fat_set_entry_name writes: the base padded to eleven bytes, the extension
    * over it from byte 8 on, all in upper case.
    */
  function Encode(name: seq<Byte>): (raw: seq<Byte>)
    requires Encodable(name)
    ensures |raw| == 11
  {
    var (b, e) := (Pad(Base(name), 11), Extension(name));
    UpperAll(b[..8] + e + b[8 + |e|..])
  }

  /** Copy up to the first dot, and pad with spaces. */
  method WriteBase(raw: array<Byte>, name: seq<Byte>) returns (dotPos: int)
    requires raw.Length == 11 && |Base(name)| <= 11
    modifies raw
    ensures raw[..] == Pad(Base(name), 11)
    ensures dotPos == if |Base(name)| < |name| then |Base(name)| else -1
  {
    ghost var b := Base(name);
    dotPos := -1;
    var i := 0;
    while i < |name|
      invariant 0 <= i <= |b|
      invariant raw[..i] == b[..i]
      invariant dotPos == -1
    {
      if name[i] == DOT {
        dotPos := i;
        break;
      }
      raw[i] := name[i];
      i := i + 1;
    }
    while i < 11
      invariant |b| <= i <= 11
      invariant raw[..i] == Pad(b, 11)[..i]
    {
      raw[i] := SPACE;
      i := i + 1;
    }
  }

  /** Copy what follows the dot to byte 8 and on. */
  method WriteExtension(raw: array<Byte>, name: seq<Byte>, dotPos: nat)
    requires raw.Length == 11 && dotPos < |name| <= dotPos + 4
    modifies raw
    ensures var e := name[dotPos + 1..];
      raw[..] == old(raw[..8]) + e + old(raw[8 + |e|..])
  {
    ghost var (was, e) := (raw[..], name[dotPos + 1..]);
    var i := 8;
    var j := dotPos + 1;
    while j < |name|
      invariant dotPos + 1 <= j <= |name| && i == 8 + (j - dotPos - 1)
      invariant raw[..8] == was[..8] && raw[i..] == was[i..]
      invariant raw[8..i] == e[..i - 8]
    {
      raw[i] := name[j];
      i, j := i + 1, j + 1;
    }
    assert raw[..] == raw[..8] + raw[8..i] + raw[i..];
  }

  method ToUpper(raw: array<Byte>)
    modifies raw
    ensures raw[..] == UpperAll(old(raw[..]))
  {
    ghost var was := raw[..];
    var i := 0;
    while i < raw.Length
      invariant 0 <= i <= raw.Length
      invariant forall k | 0 <= k < i :: raw[k] == Upper(was[k])
      invariant forall k | i <= k < raw.Length :: raw[k] == was[k]
    {
      if 0x61 <= raw[i] <= 0x7A {
        raw[i] := raw[i] - 0x20;
      }
      i := i + 1;
    }
  }

  /** fat_set_entry_name, on the name bytes of an entry. */
  method SetEntryName(raw: array<Byte>, name: seq<Byte>)
    requires raw.Length == 11 && Encodable(name)
    modifies raw
    ensures raw[..] == Encode(name)
  {
    hide Pad, UpperAll;
    var dotPos := WriteBase(raw, name);
    if dotPos >= 0 {
      WriteExtension(raw, name, dotPos);
    }
    ToUpper(raw);
  }

  // ------------------------------------------------------------ from raw bytes

  /** The position of a byte in s, or |s|. */
  function Find(s: seq<Byte>, c: Byte): (n: nat)
    ensures n <= |s| && c !in s[..n]
    ensures n < |s| ==> s[n] == c
  {
    if s == [] || s[0] == c then 0 else 1 + Find(s[1..], c)
  }

  /** A C string: the bytes before the first zero. */
  function CString(s: seq<Byte>): (r: seq<Byte>)
    ensures r <= s && 0 !in r
    ensures |r| < |s| ==> s[|r|] == 0
  {
    s[..Find(s, 0)]
  }

  /** Attributes that mark a directory (0x10) or a volume label (0x08). */
  predicate IsFile(attributes: Byte) {
    attributes / 8 % 4 == 0
  }

  /** What fat_get_entry_name writes before its final zero. */
  function RawText(raw: seq<Byte>, attributes: Byte): (text: seq<Byte>)
    requires |raw| == 11
    ensures |text| <= 12
  {
    var n := Find(raw[..8], SPACE);
    raw[..n] + if IsFile(attributes) then [DOT] + raw[8..] else []
  }

  /** Copy the eight base bytes and find where their text ends. */
  method CopyBase(raw: seq<Byte>, name: array<Byte>) returns (i: nat)
    requires |raw| == 11 && name.Length >= 8
    modifies name
    ensures i == Find(raw[..8], SPACE) && name[..8] == raw[..8]
  {
    forall k | 0 <= k < 8 {
      name[k] := raw[k];
    }
    i := 0;
    while i < 8
      invariant i <= 8 && SPACE !in raw[..i] && name[..8] == raw[..8]
    {
      if name[i] == SPACE {
        break;
      }
      i := i + 1;
    }
    FirstIsFound(raw[..8], SPACE, i);
  }

  /** Write a dot and the three extension bytes behind the base. */
  method AppendExtension(raw: seq<Byte>, name: array<Byte>, from: nat) returns (end: nat)
    requires |raw| == 11 && from + 4 <= name.Length
    modifies name
    ensures end == from + 4 && name[..end] == old(name[..from]) + [DOT] + raw[8..]
  {
    name[from] := DOT;
    end := from + 1;
    forall k | 0 <= k < 3 {
      name[end + k] := raw[8 + k];
    }
    end := end + 3;
  }

  /** fat_get_entry_name: whether it returned the buffer, which then holds the text
    * and a zero.
    */
  method GetEntryName(raw: seq<Byte>, attributes: Byte, name: array<Byte>, len: int) returns (done: bool)
    requires |raw| == 11
    requires len <= name.Length
    requires len >= 12 ==> |RawText(raw, attributes)| < name.Length
    modifies name
    ensures done <==> len >= 12
    ensures !done ==> name[..] == old(name[..])
    ensures done ==> var text := RawText(raw, attributes);
                     name[..|text| + 1] == text + [0] && CString(name[..]) == CString(text)
  {
    if len < 12 {
      return false;
    }
    hide CString, Find;
    var i := CopyBase(raw, name);
    assert name[..i] == name[..8][..i] == raw[..i];
    if IsFile(attributes) {
      i := AppendExtension(raw, name, i);
    }
    name[i] := 0;
    ghost var text := RawText(raw, attributes);
    assert name[..i] == text;
    assert name[..][..i] == text;
    CStringEnds(name[..], text);
    done := true;
  }

  lemma {:induction false} FirstIsFound(s: seq<Byte>, c: Byte, n: nat)
    requires n <= |s| && c !in s[..n] && (n < |s| ==> s[n] == c)
    ensures Find(s, c) == n
  {
    var k := Find(s, c);
    assert forall i | 0 <= i < n :: s[..n][i] == s[i];
    assert forall i | 0 <= i < k :: s[..k][i] == s[i];
  }

  /** A zero after a text ends the string there, or earlier in the text. */
  lemma CStringEnds(s: seq<Byte>, text: seq<Byte>)
    requires |text| < |s| && s[..|text|] == text && s[|text|] == 0
    ensures CString(s) == CString(text)
  {
    var n := Find(text, 0);
    assert s[..n] == text[..n];
    FirstIsFound(s, 0, n);
  }

  /** The buffer length the source asks for is one too small: thirteen bytes always
    * hold the text and its zero, twelve do not when a file's base has eight.
    */
  lemma TextFitsIff(len: nat)
    ensures (forall raw: seq<Byte>, attributes: Byte | |raw| == 11 :: |RawText(raw, attributes)| < len)
       <==> len >= 13
  {
    if len < 13 {
      var raw := seq(11, _ => DOT);
      assert raw[..8] == seq(8, _ => DOT);
      FirstIsFound(raw[..8], SPACE, 8);
      assert |RawText(raw, 0)| == 12;
    }
  }

  // --------------------------------------------------------------- round trips

  /** Eleven bytes as the standard wants them for a file: no zero and no lower case;
    * the base has no dot, and nothing but spaces after its first space.
    */
  predicate Canonical(raw: seq<Byte>)
    requires |raw| == 11
  {
    && 0 !in raw
    && (forall i | 0 <= i < 11 :: !(0x61 <= raw[i] <= 0x7A))
    && 0x2E !in raw[..8]
    && forall i, j | 0 <= i < j < 8 && raw[i] == 0x20 :: raw[j] == 0x20
  }

  lemma {:induction false} BaseOf(name: seq<Byte>, n: nat)
    requires n <= |name| && DOT !in name[..n] && (n < |name| ==> name[n] == DOT)
    ensures Base(name) == name[..n] && Extension(name) == if n < |name| then name[n + 1..] else []
  {
    var b := Base(name);
    assert forall i | 0 <= i < n :: name[..n][i] == name[i];
    assert forall i | 0 <= i < |b| :: b[i] == name[i];
  }

  /** fat_set_entry_name undoes fat_get_entry_name on a file's raw name, inside the
    * eleven bytes, exactly when that is canonical.
    */
  lemma SetUndoesGetIff(raw: seq<Byte>, attributes: Byte)
    requires |raw| == 11 && attributes % 0x20 < 8
    ensures var text := CString(RawText(raw, attributes));
      Encodable(text) && Encode(text) == raw <==> Canonical(raw)
  {
    if Canonical(raw) {
      CanonicalComesBack(raw, attributes);
    }
    var text := CString(RawText(raw, attributes));
    if Encodable(text) && Encode(text) == raw {
      ComesBackCanonical(raw, attributes);
    }
  }

  lemma CanonicalComesBack(raw: seq<Byte>, attributes: Byte)
    requires |raw| == 11 && IsFile(attributes) && Canonical(raw)
    ensures var text := CString(RawText(raw, attributes)); Encodable(text) && Encode(text) == raw
  {
    var n := Find(raw[..8], SPACE);
    var text := RawText(raw, attributes);
    FirstIsFound(text, 0, |text|);
    assert CString(text) == text;
    assert text[..n] == raw[..n] && forall i | 0 <= i < n :: raw[..n][i] == raw[..8][i];
    BaseOf(text, n);
    assert Extension(text) == raw[8..];
    hide Encode, Find, CString, Canonical, RawText;
    EncodingOfShortName(text);
    CanonicalIsPadded(raw);
  }

  lemma CanonicalIsPadded(raw: seq<Byte>)
    requires |raw| == 11 && Canonical(raw)
    ensures var n := Find(raw[..8], SPACE);
      raw == Pad(UpperAll(raw[..n]), 8) + Pad(UpperAll(raw[8..]), 3)
  {
    hide Find;
    var n := Find(raw[..8], SPACE);
    assert n < 8 ==> raw[..8][n] == raw[n];
    assert Pad(UpperAll(raw[..n]), 8) == raw[..8];
    assert Pad(UpperAll(raw[8..]), 3) == raw[8..];
  }

  lemma ComesBackCanonical(raw: seq<Byte>, attributes: Byte)
    requires |raw| == 11 && IsFile(attributes)
    requires var text := CString(RawText(raw, attributes)); Encodable(text) && Encode(text) == raw
    ensures Canonical(raw)
  {
    hide Encode, Canonical;
    var (n, text) := (Find(raw[..8], SPACE), RawText(raw, attributes));
    EncodedNameIsUpper(CString(text));
    EncodedNameLacksZero(CString(text));
    FirstIsFound(text, 0, |text|);
    assert CString(text) == text;
    assert text[..n] == raw[..n] && text[n] == DOT;
    var k := |Base(text)|;
    assert k < n ==> |Extension(text)| == |text| - k - 1;
    BaseOf(text, n);
    EncodedBaseIsPadded(text);
    PaddedIsCanonical(raw, n);
  }

  lemma PaddedIsCanonical(raw: seq<Byte>, n: nat)
    requires |raw| == 11 && n <= 8 && 0 !in raw && forall i | 0 <= i < 11 :: !(0x61 <= raw[i] <= 0x7A)
    requires DOT !in raw[..n] && SPACE !in raw[..8][..n] && forall i | n <= i < 8 :: raw[i] == SPACE
    ensures Canonical(raw)
  {
    assert forall i | 0 <= i < n :: raw[..n][i] == raw[i] == raw[..8][..n][i];
  }

  lemma EncodedNameIsUpper(name: seq<Byte>)
    requires Encodable(name)
    ensures forall i | 0 <= i < 11 :: !(0x61 <= Encode(name)[i] <= 0x7A)
  {}

  lemma EncodedNameLacksZero(name: seq<Byte>)
    requires Encodable(name) && 0 !in name
    ensures 0 !in Encode(name)
  {
    var (b, e) := (Base(name), Extension(name));
    assert 0 !in b && 0 !in e;
    var padded := Pad(b, 11);
    assert 0 !in padded;
    assert 0 !in padded[..8] + e + padded[8 + |e|..];
  }

  lemma EncodedBaseIsPadded(name: seq<Byte>)
    requires Encodable(name) && |Base(name)| <= 8
    ensures forall i | |Base(name)| <= i < 8 :: Encode(name)[i] == SPACE
  {}

  /** The eleven bytes of a name, a base before a dot and an extension behind it: the
    * extension stands from byte 8 on, over the base if that is longer; what neither covers
    * is a space; and a letter in lower case, 0x61 to 0x7A, is stored as itself less 0x20.
    */
  lemma EncodedBytes(name: seq<Byte>, b: seq<Byte>, e: seq<Byte>)
    requires 0x2E !in b && |b| <= 11 && |e| <= 3
    requires name == b + [0x2E] + e || (name == b && e == [])
    ensures Encodable(name)
    ensures forall i | 0 <= i < 11 ::
              var given: int := if 8 <= i < 8 + |e| then e[i - 8] else if i < |b| then b[i] else 0x20;
              && Encode(name)[i] == (if 0x61 <= given <= 0x7A then given - 0x20 else given)
              && !(0x61 <= Encode(name)[i] <= 0x7A)
  {
    assert name[..|b|] == b;
    assert name != b ==> name[|b| + 1..] == e;
    BaseOf(name, |b|);
  }

  /** The usual names: a base of at most eight characters and an extension of at most
    * three, none of them zero or a space.
    */
  predicate ShortName(name: seq<Byte>) {
    && |Base(name)| <= 8 && |Extension(name)| <= 3
    && 0 !in name && SPACE !in name
  }

  /** For a short name the encoding is the base and the extension, each padded with
    * spaces, in upper case.
    */
  lemma EncodingOfShortName(name: seq<Byte>)
    requires |Base(name)| <= 8 && |Extension(name)| <= 3
    ensures Encode(name) == Pad(UpperAll(Base(name)), 8) + Pad(UpperAll(Extension(name)), 3)
  {
    var (b, e) := (Base(name), Extension(name));
    assert Pad(b, 11)[..8] == Pad(b, 8);
    assert Pad(b, 11)[8 + |e|..] == Spaces(3 - |e|);
  }

  /** Getting the name of a file whose name has been set gives the name in upper case
    * with its extension padded to three, whether or not it had a dot.
    */
  lemma GetAfterSet(name: seq<Byte>, attributes: Byte)
    requires ShortName(name) && IsFile(attributes)
    ensures CString(RawText(Encode(name), attributes))
            == UpperAll(Base(name)) + [DOT] + Pad(UpperAll(Extension(name)), 3)
  {
    var (b, e) := (UpperAll(Base(name)), UpperAll(Extension(name)));
    EncodingOfShortName(name);
    PartsLack(name, SPACE);
    PartsLack(name, 0);
    TextOfPadded(b, e, attributes);
    StringOfPadded(b, e);
  }

  /** The text that comes back for a base and an extension without zeros and spaces: the
    * base, a dot, and the extension with spaces up to three, in upper case. A directory's
    * ends before the dot.
    */
  lemma TextAfterSet(name: seq<Byte>, b: seq<Byte>, e: seq<Byte>, attributes: Byte)
    requires 0x2E !in b && |b| <= 8 && |e| <= 3 && 0 !in name && 0x20 !in name
    requires name == b + [0x2E] + e || (name == b && e == [])
    ensures Encodable(name)
    ensures var text := CString(RawText(Encode(name), attributes));
      && |text| == (if attributes % 0x20 < 8 then |b| + 4 else |b|)
      && (forall i | 0 <= i < |b| :: text[i] as int == if 0x61 <= b[i] <= 0x7A then b[i] - 0x20 else b[i])
      && (attributes % 0x20 < 8 ==>
            && text[|b|] == 0x2E
            && forall i | 0 <= i < 3 ::
                 var given: int := if i < |e| then e[i] else 0x20;
                 text[|b| + 1 + i] == (if 0x61 <= given <= 0x7A then given - 0x20 else given))
  {
    assert name[..|b|] == b;
    assert name != b ==> name[|b| + 1..] == e;
    BaseOf(name, |b|);
    hide Encode, CString, RawText, Find, Base, Extension;
    if IsFile(attributes) {
      GetAfterSet(name, attributes);
    } else {
      DirectoryText(name, attributes);
    }
  }

  lemma DirectoryText(name: seq<Byte>, attributes: Byte)
    requires ShortName(name) && !IsFile(attributes)
    ensures CString(RawText(Encode(name), attributes)) == UpperAll(Base(name))
  {
    var (b, raw) := (UpperAll(Base(name)), Encode(name));
    EncodingOfShortName(name);
    PartsLack(name, SPACE);
    PartsLack(name, 0);
    assert raw[..8] == Pad(b, 8) && raw[..8][..|b|] == b;
    FirstIsFound(raw[..8], SPACE, |b|);
    assert RawText(raw, attributes) == b;
    FirstIsFound(b, 0, |b|);
  }

  lemma PartsLack(name: seq<Byte>, c: Byte)
    requires c !in name && c < 0x41
    ensures c !in UpperAll(Base(name)) && c !in UpperAll(Extension(name))
  {}

  lemma StringOfPadded(b: seq<Byte>, e: seq<Byte>)
    requires 0 !in b && 0 !in e && |e| <= 3
    ensures CString(b + [DOT] + Pad(e, 3)) == b + [DOT] + Pad(e, 3)
  {
    var text := b + [DOT] + Pad(e, 3);
    FirstIsFound(text, 0, |text|);
  }

  lemma TextOfPadded(b: seq<Byte>, e: seq<Byte>, attributes: Byte)
    requires |b| <= 8 && |e| <= 3 && SPACE !in b && IsFile(attributes)
    ensures RawText(Pad(b, 8) + Pad(e, 3), attributes) == b + [DOT] + Pad(e, 3)
  {
    var raw := Pad(b, 8) + Pad(e, 3);
    assert raw[..8] == Pad(b, 8) && raw[8..] == Pad(e, 3);
    assert raw[..8][..|b|] == b;
    FirstIsFound(raw[..8], SPACE, |b|);
  }

  /** s without the spaces at its end. */
  function Trim(s: seq<Byte>): (r: seq<Byte>)
    ensures r <= s && (r != [] ==> r[|r| - 1] != SPACE)
    ensures forall i | |r| <= i < |s| :: s[i] == SPACE
  {
    if s != [] && s[|s| - 1] == SPACE then Trim(s[..|s| - 1]) else s
  }

  lemma PaddedAgreeIff(a: seq<Byte>, b: seq<Byte>, n: nat)
    requires |a| <= n && |b| <= n
    ensures Pad(UpperAll(a), n) == Pad(UpperAll(b), n) <==> UpperAll(Trim(a)) == UpperAll(Trim(b))
  {
    if UpperAll(Trim(a)) == UpperAll(Trim(b)) {
      PadOfTrim(a, n);
      PadOfTrim(b, n);
    }
    if Pad(UpperAll(a), n) == Pad(UpperAll(b), n) {
      PaddedAgree(a, b, n);
      PaddedAgree(b, a, n);
    }
  }

  lemma PadOfTrim(a: seq<Byte>, n: nat)
    requires |a| <= n
    ensures Pad(UpperAll(a), n) == Pad(UpperAll(Trim(a)), n)
  {}

  lemma PaddedAgree(a: seq<Byte>, b: seq<Byte>, n: nat)
    requires |a| <= n && |b| <= n && Pad(UpperAll(a), n) == Pad(UpperAll(b), n)
    ensures |Trim(a)| <= |Trim(b)|
    ensures |Trim(a)| == |Trim(b)| ==> UpperAll(Trim(a)) == UpperAll(Trim(b))
  {
    PadOfTrim(a, n);
    PadOfTrim(b, n);
    var (x, y) := (Trim(a), Trim(b));
    assert Pad(UpperAll(x), n) == Pad(UpperAll(y), n);
    assert forall i | |y| <= i < n :: Pad(UpperAll(y), n)[i] == SPACE;
    if x != [] {
      assert Pad(UpperAll(x), n)[|x| - 1] == Upper(x[|x| - 1]);
    }
  }

  /** Two short names have the same encoding exactly when their bases and their
    * extensions agree up to letter case and spaces at their ends.
    */
  lemma EncodingsAgreeIff(a: seq<Byte>, b: seq<Byte>)
    requires |Base(a)| <= 8 && |Extension(a)| <= 3 && |Base(b)| <= 8 && |Extension(b)| <= 3
    ensures Encode(a) == Encode(b) <==>
              && UpperAll(Trim(Base(a))) == UpperAll(Trim(Base(b)))
              && UpperAll(Trim(Extension(a))) == UpperAll(Trim(Extension(b)))
  {
    EncodingOfShortName(a);
    EncodingOfShortName(b);
    PaddedAgreeIff(Base(a), Base(b), 8);
    PaddedAgreeIff(Extension(a), Extension(b), 3);
    assert Encode(a)[..8] == Pad(UpperAll(Base(a)), 8) && Encode(b)[..8] == Pad(UpperAll(Base(b)), 8);
    assert Encode(a)[8..] == Pad(UpperAll(Extension(a)), 3) && Encode(b)[8..] == Pad(UpperAll(Extension(b)), 3);
  }
}
