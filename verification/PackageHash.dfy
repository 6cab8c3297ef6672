/** The byte sequence hashed to identify a vendor package. */
module PackageHash {
  import opened Sorting
  import opened Texts

  type Byte = b: int | 0 <= b < 256
  type Bytes = seq<Byte>

  const COLON: Byte := 58
  const NEWLINE: Byte := 10

  /** A package file; path and content are UTF-8 bytes. */
  datatype File = File(path: Bytes, content: Bytes)

  function Ascii(d: nat): Byte { 48 + d % 10 }

  /** `String(n)`. */
  function Decimal(n: nat): (r: Bytes)
    ensures r != [] && COLON !in r
  {
    NumeralGlyphs(n, Ascii);
    Numeral(n, Ascii)
  }

  /** A length is written in ASCII digits. */
  lemma DecimalReads(n: nat)
    ensures Reading(Decimal(n), (b: Byte) => b - 48) == n && (n > 0 ==> Decimal(n)[0] != 48)
    ensures forall b | b in Decimal(n) :: 48 <= b < 58
  {
    NumeralReads(n, Ascii, (b: Byte) => b - 48);
    NumeralGlyphs(n, Ascii);
  }

  /** A byte string after its length and a colon. */
  function Prefixed(p: Bytes): Bytes { Decimal(|p|) + ([COLON] + p) }

  /** Length, colon, path, colon, length, colon, content, newline. */
  function Encode(f: File): Bytes { Prefixed(f.path) + ([COLON] + (Prefixed(f.content) + [NEWLINE])) }

  /** The bytes of a file, read by their places: the length of its path in decimal digits, a
      colon, the path, a colon, the same for its content, and a newline. */
  lemma EncodeReads(f: File)
    ensures var t, a, b := Encode(f), |Decimal(|f.path|)|, |Decimal(|f.content|)|;
            var p, c := |f.path|, |f.content|;
            && |t| == a + p + b + c + 4
            && t[..a] == Decimal(p) && t[a] == 0x3A && t[a + 1..a + 1 + p] == f.path && t[a + 1 + p] == 0x3A
            && t[a + p + 2..a + p + 2 + b] == Decimal(c) && t[a + p + b + 2] == 0x3A
            && t[a + p + b + 3..a + p + b + 3 + c] == f.content && t[|t| - 1] == 0x0A
  {
  }

  function Preimage(files: seq<File>): Bytes {
    if files == [] then [] else Encode(files[0]) + Preimage(files[1..])
  }

  /** A length-prefixed byte string can be read back, whatever bytes it contains. */
  lemma PrefixedDecodes(p: Bytes, q: Bytes, x: Bytes, y: Bytes)
    requires Prefixed(p) + x == Prefixed(q) + y
    ensures p == q && x == y
  {
    assert Prefixed(p) + x == Decimal(|p|) + ([COLON] + (p + x));
    assert Prefixed(q) + y == Decimal(|q|) + ([COLON] + (q + y));
    FirstSeparator(COLON, Decimal(|p|), Decimal(|q|), p + x, q + y);
    NumeralInjective(|p|, |q|, Ascii);
    assert (p + x)[..|p|] == p && (q + y)[..|q|] == q;
    assert (p + x)[|p|..] == x && (q + y)[|q|..] == y;
  }

  lemma FileDecodes(f: File, g: File, x: Bytes, y: Bytes)
    requires Encode(f) + x == Encode(g) + y
    ensures f == g && x == y
  {
    var fl, gl := Prefixed(f.content) + ([NEWLINE] + x), Prefixed(g.content) + ([NEWLINE] + y);
    EncodeThen(f, x);
    EncodeThen(g, y);
    PrefixedDecodes(f.path, g.path, [COLON] + fl, [COLON] + gl);
    assert ([COLON] + fl)[1..] == fl && ([COLON] + gl)[1..] == gl;
    PrefixedDecodes(f.content, g.content, [NEWLINE] + x, [NEWLINE] + y);
    assert ([NEWLINE] + x)[1..] == x && ([NEWLINE] + y)[1..] == y;
  }

  lemma EncodeThen(f: File, x: Bytes)
    ensures Encode(f) + x == Prefixed(f.path) + ([COLON] + (Prefixed(f.content) + ([NEWLINE] + x)))
  {
    Associative(Prefixed(f.path), [COLON] + (Prefixed(f.content) + [NEWLINE]), x);
    Associative([COLON], Prefixed(f.content) + [NEWLINE], x);
    Associative(Prefixed(f.content), [NEWLINE], x);
  }

  /** Different file lists have different preimages, also when paths or contents
      contain digits, colons and newlines. */
  lemma {:induction false} PreimageInjective(a: seq<File>, b: seq<File>)
    requires Preimage(a) == Preimage(b)
    ensures a == b
    decreases |a|
  {
    assert a == [] <==> Preimage(a) == [];
    assert b == [] <==> Preimage(b) == [];
    if a == [] {
    } else {
      FileDecodes(a[0], b[0], Preimage(a[1..]), Preimage(b[1..]));
      PreimageInjective(a[1..], b[1..]);
      assert a == [a[0]] + a[1..] && b == [b[0]] + b[1..];
    }
  }

  /** The incremental hash: the bytes fed to it so far. */
  class Hash {
    var fed: Bytes

    constructor ()
      ensures fed == []
    {
      fed := [];
    }

    method Update(bytes: Bytes)
      modifies this
      ensures fed == old(fed) + bytes
    {
      fed := fed + bytes;
    }

    method UpdatePrefixed(bytes: Bytes)
      modifies this
      ensures fed == old(fed) + Prefixed(bytes)
    {
      Update(Decimal(|bytes|));
      Update([COLON]);
      Update(bytes);
      Associative(Decimal(|bytes|), [COLON], bytes);
    }
  }

  lemma {:induction false} PreimageSnoc(files: seq<File>, f: File)
    ensures Preimage(files + [f]) == Preimage(files) + Encode(f)
  {
    if files == [] {
      assert [f][1..] == [] && Encode(f) + [] == Encode(f) && [] + [f] == [f];
    } else {
      assert (files + [f])[1..] == files[1..] + [f];
      PreimageSnoc(files[1..], f);
      assert Encode(files[0]) + (Preimage(files[1..]) + Encode(f)) == Preimage(files) + Encode(f);
    }
  }

  lemma EncodedInSteps(before: Bytes, f: File)
    ensures before + Prefixed(f.path) + [COLON] + Prefixed(f.content) + [NEWLINE] == before + Encode(f)
  {
    var p, c := Prefixed(f.path), Prefixed(f.content);
    Associative(before, p, [COLON] + (c + [NEWLINE]));
    Associative(before + p, [COLON], c + [NEWLINE]);
    Associative(before + p + [COLON], c, [NEWLINE]);
  }

  /** `hashPackage`, up to the digest of what was fed. `le` is the locale's comparison
      of the paths. */
  method HashPackage(inputs: seq<File>, le: (File, File) -> bool) returns (fed: Bytes)
    ensures fed == Preimage(Sort(inputs, le))
  {
    var hash := new Hash();
    var sorted := Sort(inputs, le);
    for i := 0 to |sorted|
      invariant hash.fed == Preimage(sorted[..i])
    {
      var f := sorted[i];
      ghost var before := hash.fed;
      hash.UpdatePrefixed(f.path);
      hash.Update([COLON]);
      hash.UpdatePrefixed(f.content);
      hash.Update([NEWLINE]);
      EncodedInSteps(before, f);
      PreimageSnoc(sorted[..i], f);
      assert sorted[..i + 1] == sorted[..i] + [f];
    }
    assert sorted[..|sorted|] == sorted;
    fed := hash.fed;
  }

  /** The preimage is the same for every order of the inputs exactly when no two
      different files compare as equal. Distinct paths are enough only where the
      locale tells them apart. */
  lemma OrderIndependentIff(inputs: seq<File>, le: (File, File) -> bool)
    requires TotalPreorder(le)
    ensures (forall other: seq<File> | multiset(other) == multiset(inputs) ::
               Preimage(Sort(other, le)) == Preimage(Sort(inputs, le)))
            <==> NoTies(inputs, le)
  {
    if NoTies(inputs, le) {
      forall other: seq<File> | multiset(other) == multiset(inputs)
        ensures Preimage(Sort(other, le)) == Preimage(Sort(inputs, le))
      {
        SortIgnoresOrder(inputs, other, le);
      }
    } else {
      var a, b := OrderMattersForTies(inputs, le);
      if Preimage(Sort(a, le)) == Preimage(Sort(b, le)) { PreimageInjective(Sort(a, le), Sort(b, le)); }
      assert Preimage(Sort(a, le)) != Preimage(Sort(b, le));
    }
  }

  /** Two sorted packages with the same preimage hold the same files. */
  lemma SamePreimageSameFiles(a: seq<File>, b: seq<File>, le: (File, File) -> bool)
    requires Preimage(Sort(a, le)) == Preimage(Sort(b, le))
    ensures multiset(a) == multiset(b)
  {
    PreimageInjective(Sort(a, le), Sort(b, le));
    SortPermutes(a, le);
    SortPermutes(b, le);
  }
}
