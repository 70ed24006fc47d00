/** Conversion of file names to the 11-byte 8.3 form. */
module Names {
  import opened Words

  const BASE_LENGTH: nat := 8
  const EXT_LENGTH: nat := 3
  const NAME_LENGTH: nat := BASE_LENGTH + EXT_LENGTH
  const SPACE: u8 := 0x20

  /** `c.to_ascii_uppercase() as u8`: the code point loses all but its low eight bits. */
  function UpperByte(c: char): u8 {
    (if 'a' <= c <= 'z' then c as int - 32 else c as int) % 0x100
  }

  /** `s`, cut or space-padded to `n` bytes. */
  function Field(s: string, n: nat): (f: seq<u8>)
    ensures |f| == n
  {
    seq<u8>(n, i requires 0 <= i => if i < |s| then UpperByte(s[i]) else SPACE)
  }

  /** The position of the last dot, or -1. */
  function LastDot(name: string): (d: int)
    ensures -1 <= d < |name|
    ensures d >= 0 ==> name[d] == '.'
    ensures forall i :: d < i < |name| ==> name[i] != '.'
  {
    if name == "" then -1
    else if name[|name| - 1] == '.' then |name| - 1
    else LastDot(name[..|name| - 1])
  }

  function Base(name: string): string {
    if LastDot(name) >= 0 then name[..LastDot(name)] else name
  }

  function Ext(name: string): string {
    if LastDot(name) >= 0 then name[LastDot(name) + 1..] else ""
  }

  function ShortName(name: string): (s: seq<u8>)
    ensures |s| == NAME_LENGTH
  {
    Field(Base(name), BASE_LENGTH) + Field(Ext(name), EXT_LENGTH)
  }

  method ToShortName(name: string) returns (shortName: seq<u8>)
    ensures shortName == ShortName(name)
  {
    hide Base, Ext, Field;
    var short := new u8[NAME_LENGTH](_ => SPACE);
    var base, ext := RSplitOnce(name);
    PutField(short, 0, base, BASE_LENGTH);
    PutField(short, BASE_LENGTH, ext, EXT_LENGTH);
    assert short[..] == Field(base, BASE_LENGTH) + Field(ext, EXT_LENGTH);
    return short[..];
  }

  /** Upper-cases up to `n` characters of `s` into a field that holds spaces. */
  method PutField(short: array<u8>, at: nat, s: string, n: nat)
    requires at + n <= short.Length
    requires forall j :: at <= j < at + n ==> short[j] == SPACE
    modifies short
    ensures short[..] == Patch(old(short[..]), at, Field(s, n))
  {
    for i := 0 to if |s| < n then |s| else n
      invariant forall j :: 0 <= j < short.Length ==>
        short[j] == if at <= j < at + i then UpperByte(s[j - at]) else old(short[j])
    {
      short[at + i] := UpperByte(s[i]);
    }
  }

  /** `name.rsplit_once('.')`, with the whole name as base when there is no dot. */
  method RSplitOnce(name: string) returns (base: string, ext: string)
    ensures base == Base(name) && ext == Ext(name)
    ensures '.' !in ext
    ensures '.' in name ==> name == base + "." + ext
    ensures '.' !in name ==> name == base && ext == ""
  {
    var d := |name|;
    while d > 0 && name[d - 1] != '.'
      invariant 0 <= d <= |name|
      invariant forall i :: d <= i < |name| ==> name[i] != '.'
    {
      d := d - 1;
    }
    LastDotUnique(name, d - 1);
    if d > 0 {
      return name[..d - 1], name[d..];
    }
    return name, "";
  }

  lemma LastDotUnique(name: string, d: int)
    requires -1 <= d < |name| && (d >= 0 ==> name[d] == '.')
    requires forall i :: d < i < |name| ==> name[i] != '.'
    ensures LastDot(name) == d
  {
  }

  // ---------------------------------------------------------------- which names stay apart

  /** A character that an 8.3 name keeps as it is. */
  predicate Plain(c: char) {
    '!' <= c <= '~' && c != '.' && !('a' <= c <= 'z')
  }

  predicate PlainName(base: string, ext: string) {
    && |base| <= BASE_LENGTH && |ext| <= EXT_LENGTH
    && (forall i :: 0 <= i < |base| ==> Plain(base[i]))
    && (forall i :: 0 <= i < |ext| ==> Plain(ext[i]))
  }

  /** The characters of a field without its space padding. */
  function Unpadded(f: seq<u8>): string {
    if f == [] then ""
    else if f[|f| - 1] == SPACE then Unpadded(f[..|f| - 1])
    else seq<char>(|f|, i requires 0 <= i < |f| => f[i] as char)
  }

  /** Base and extension of an upper-case 8.3 name, with or without a dot, can be read back from its
      short form. */
  lemma ShortNameRoundTrip(name: string)
    requires PlainName(Base(name), Ext(name))
    ensures var s := ShortName(name);
      Unpadded(s[..BASE_LENGTH]) == Base(name) && Unpadded(s[BASE_LENGTH..]) == Ext(name)
  {
    hide Base, Ext;
    assert ShortName(name)[..BASE_LENGTH] == Field(Base(name), BASE_LENGTH);
    assert ShortName(name)[BASE_LENGTH..] == Field(Ext(name), EXT_LENGTH);
    UnpaddedField(Base(name), BASE_LENGTH);
    UnpaddedField(Ext(name), EXT_LENGTH);
  }

  /** Of the upper-case 8.3 names, two share a short form only when they are the same but for a dot at
      the end, as "README" and "README." are. */
  lemma PlainNamesCoincide(a: string, b: string)
    requires PlainName(Base(a), Ext(a)) && PlainName(Base(b), Ext(b))
    ensures ShortName(a) == ShortName(b) <==> a == b || a == b + "." || b == a + "."
  {
    hide ShortName, Base, Ext;
    if ShortName(a) == ShortName(b) {
      ShortNameRoundTrip(a);
      ShortNameRoundTrip(b);
      AroundLastDot(a);
      AroundLastDot(b);
    }
    if a == b + "." {
      DotAtEnd(b);
    } else if b == a + "." {
      DotAtEnd(a);
    }
  }

  lemma AroundLastDot(name: string)
    ensures name == Base(name) + "." + Ext(name) || (name == Base(name) && Ext(name) == "")
  {
  }

  lemma DotAtEnd(name: string)
    requires PlainName(Base(name + "."), Ext(name + "."))
    ensures ShortName(name + ".") == ShortName(name)
  {
    var longer := name + ".";
    LastDotUnique(longer, |name|);
    assert Base(longer) == name && Ext(longer) == "";
    LastDotUnique(name, -1);
  }

  lemma {:induction false} UnpaddedField(s: string, n: nat)
    requires |s| <= n && forall i :: 0 <= i < |s| ==> Plain(s[i])
    ensures Unpadded(Field(s, n)) == s
  {
    var f := Field(s, n);
    if |s| < n {
      assert f[..n - 1] == Field(s, n - 1);
      UnpaddedField(s, n - 1);
    } else if n > 0 {
      assert f[n - 1] != SPACE;
      assert Unpadded(f) == s;
    }
  }

  /** The same character, or the two cases of one ASCII letter, which are 32 apart. */
  predicate SameLetter(c: char, d: char) {
    c == d || ('a' <= c <= 'z' && d as int == c as int - 32) || ('a' <= d <= 'z' && c as int == d as int - 32)
  }

  ghost predicate Alike(a: string, b: string) {
    |a| == |b| && forall i :: 0 <= i < |a| ==> SameLetter(a[i], b[i])
  }

  /** Names that differ only in the case of ASCII letters are one name. */
  lemma CaseIsIgnored(a: string, b: string)
    requires Alike(a, b)
    ensures ShortName(a) == ShortName(b)
  {
    assert forall i :: 0 <= i < |a| ==> (a[i] == '.' <==> b[i] == '.');
    LastDotUnique(b, LastDot(a));
    assert forall i :: 0 <= i < |a| ==> UpperByte(a[i]) == UpperByte(b[i]);
    assert Alike(Base(a), Base(b)) && Alike(Ext(a), Ext(b));
    LikeFields(Base(a), Base(b), BASE_LENGTH);
    LikeFields(Ext(a), Ext(b), EXT_LENGTH);
  }

  lemma LikeFields(s: string, t: string, n: nat)
    requires Alike(s, t)
    ensures Field(s, n) == Field(t, n)
  {
    assert forall i :: 0 <= i < |s| ==> UpperByte(s[i]) == UpperByte(t[i]);
  }

  /** Each byte of the short form is decided by one character: its upper-case code cut to eight bits,
      or a space past the end. No byte for an ASCII character is a lower-case letter. */
  lemma ShortNameByte(name: string, i: nat)
    requires i < NAME_LENGTH
    ensures var part, j := if i < 8 then Base(name) else Ext(name), if i < 8 then i else i - 8;
      var b := ShortName(name)[i] as int;
      if j >= |part| then b == 0x20
      else
        var code := part[j] as int;
        && (0x61 <= code <= 0x7A ==> b == code - 0x20)
        && (code < 0x61 || 0x7A < code ==> b == code % 0x100)
        && (code < 0x80 ==> !(0x61 <= b <= 0x7A))
  {
    hide Base, Ext;
    if i < BASE_LENGTH {
      assert ShortName(name)[i] == Field(Base(name), BASE_LENGTH)[i];
    } else {
      assert ShortName(name)[i] == Field(Ext(name), EXT_LENGTH)[i - BASE_LENGTH];
    }
  }

  /** The short form of an ASCII name has no lower-case letter. */
  lemma NoLowerCase(name: string)
    requires forall i :: 0 <= i < |name| ==> name[i] as int < 0x80
    ensures forall b :: b in ShortName(name) ==> !(0x61 <= b <= 0x7A)
  {
    hide ShortName;
    forall i | 0 <= i < NAME_LENGTH
      ensures !(0x61 <= ShortName(name)[i] <= 0x7A)
    {
      ShortNameByte(name, i);
    }
  }

  function Cut(s: string, n: nat): string {
    if |s| <= n then s else s[..n]
  }

  /** Only the first eight characters of the base and the first three of the extension matter. */
  lemma LongNamesAreCut(name: string)
    ensures ShortName(name) == ShortName(Cut(Base(name), 8) + "." + Cut(Ext(name), 3))
  {
    var base, ext := Cut(Base(name), 8), Cut(Ext(name), 3);
    var short := base + "." + ext;
    LastDotUnique(short, |base|);
    assert Base(short) == base && Ext(short) == ext;
    assert Field(base, BASE_LENGTH) == Field(Base(name), BASE_LENGTH);
    assert Field(ext, EXT_LENGTH) == Field(Ext(name), EXT_LENGTH);
  }

  // ---------------------------------------------------------------- names in any case

  function Upper(s: string): (u: string)
    ensures |u| == |s|
  {
    seq<char>(|s|, i requires 0 <= i < |s| => if 'a' <= s[i] <= 'z' then (s[i] as int - 32) as char else s[i])
  }

  /** Base and extension fit their fields and consist of visible ASCII characters. */
  predicate Visible(base: string, ext: string) {
    && |base| <= BASE_LENGTH && |ext| <= EXT_LENGTH
    && (forall i :: 0 <= i < |base| ==> '!' <= base[i] <= '~' && base[i] != '.')
    && (forall i :: 0 <= i < |ext| ==> '!' <= ext[i] <= '~' && ext[i] != '.')
  }

  lemma UpperIsAlike(a: string, b: string)
    ensures Alike(a, Upper(a))
    ensures Upper(a) == Upper(b) <==> Alike(a, b)
    ensures Upper(a + ".") == Upper(a) + "."
  {
    if Alike(a, b) {
      assert Upper(a) == Upper(b);
    } else if Upper(a) == Upper(b) {
      forall i | 0 <= i < |a|
        ensures SameLetter(a[i], b[i])
      {
        assert Upper(a)[i] == Upper(b)[i];
      }
      assert false;
    }
  }

  lemma UpperParts(name: string)
    requires Visible(Base(name), Ext(name))
    ensures PlainName(Base(Upper(name)), Ext(Upper(name)))
  {
    hide PlainName, Visible;
    LastDotUnique(Upper(name), LastDot(name));
    UpperPlain(Base(name), Ext(name));
    assert Base(Upper(name)) == Upper(Base(name)) && Ext(Upper(name)) == Upper(Ext(name));
  }

  lemma UpperPlain(base: string, ext: string)
    requires Visible(base, ext)
    ensures PlainName(Upper(base), Upper(ext))
  {
  }

  /** Of the 8.3 names of visible ASCII characters, two share a short form exactly when they are the
      same but for the case of letters and a dot at the end. */
  lemma NamesCoincide(a: string, b: string)
    requires Visible(Base(a), Ext(a)) && Visible(Base(b), Ext(b))
    ensures ShortName(a) == ShortName(b) <==> Alike(a, b) || Alike(a, b + ".") || Alike(a + ".", b)
  {
    hide ShortName, Base, Ext, Upper, Alike, Visible, PlainName;
    UpperParts(a);
    UpperParts(b);
    UpperIsAlike(a, b);
    UpperIsAlike(b, a + ".");
    UpperIsAlike(a, b + ".");
    UpperIsAlike(a + ".", b);
    CaseIsIgnored(a, Upper(a));
    CaseIsIgnored(b, Upper(b));
    PlainNamesCoincide(Upper(a), Upper(b));
  }
}
