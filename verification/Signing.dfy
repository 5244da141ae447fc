/** The bytes that the digest of a plugin package is taken over. */
module Signing {
  import opened Json
  import opened Sequences
  import opened Unicode
  import opened Wrappers

  predicate IsNotZero(b: Byte) {
    b != 0
  }

  const LABEL: seq<Byte> := Ascii("SHAM-PLUGIN-SIGNATURE-V1") + [0]
  const SIGNATURE: Text := Ascii("signature")
  const MANIFEST_FILE: Text := Ascii("plugin.json")

  function Ascii(s: string): (bytes: seq<Byte>)
    requires forall i | 0 <= i < |s| :: s[i] as int < 0x80
    ensures |bytes| == |s|
  {
    seq(|s|, i requires 0 <= i < |s| => s[i] as int)
  }

  /** A file of a package and the SHA-256 digest of its data. */
  datatype File = File(path: Text, digest: seq<Byte>)

  predicate ProperFile(f: File) {
    Plain(f.path) && |f.digest| == 32
  }

  function Unsigned(manifest: Fields): (unsigned: Fields)
    ensures forall key :: HasKey(unsigned, key) <==> key != SIGNATURE && HasKey(manifest, key)
  {
    if manifest.NoFields? then NoFields
    else if manifest.key == SIGNATURE then Unsigned(manifest.others)
    else Field(manifest.key, manifest.value, Unsigned(manifest.others))
  }

  function Contents(files: seq<File>): (contents: seq<File>)
    ensures forall f | f in contents :: f in files && f.path != MANIFEST_FILE
  {
    if files == [] then []
    else Contents(files[..|files| - 1]) + if files[|files| - 1].path == MANIFEST_FILE then [] else [files[|files| - 1]]
  }

  function FileBytes(f: File): seq<Byte> {
    [0] + (Utf8(f.path) + ([0] + f.digest))
  }

  function FilesBytes(files: seq<File>): seq<Byte> {
    if files == [] then [] else FileBytes(files[0]) + FilesBytes(files[1..])
  }

  function ManifestBytes(manifest: Fields): seq<Byte> {
    Utf8(Canonical(Object(Unsigned(manifest))))
  }

  function Stream(manifest: Fields, files: seq<File>): seq<Byte> {
    LABEL + (ManifestBytes(manifest) + FilesBytes(Contents(files)))
  }

  lemma {:induction false} FilesBytesAppend(files: seq<File>, f: File)
    ensures FilesBytes(files + [f]) == FilesBytes(files) + FileBytes(f)
  {
    if files != [] {
      FilesBytesAppend(files[1..], f);
      assert (files + [f])[1..] == files[1..] + [f];
    }
  }

  lemma FourPieces(x: seq<Byte>, a: seq<Byte>, b: seq<Byte>, c: seq<Byte>, d: seq<Byte>)
    ensures x + a + b + c + d == x + (a + (b + (c + d)))
  {
  }

  /** What the next file adds to what was fed for the files before it. */
  lemma NextFile(start: seq<Byte>, files: seq<File>, i: nat)
    requires i < |files|
    ensures
      var added := if files[i].path == MANIFEST_FILE then [] else FileBytes(files[i]);
      start + FilesBytes(Contents(files[..i + 1])) == start + FilesBytes(Contents(files[..i])) + added
  {
    assert files[..i + 1][..i] == files[..i];
    var before := Contents(files[..i]);
    if files[i].path != MANIFEST_FILE {
      FilesBytesAppend(before, files[i]);
      Regroup(start, FilesBytes(before), FileBytes(files[i]));
    } else {
      assert before + [] == before;
    }
  }

  /** Feed the hash: the label, the unsigned manifest, and each file of the package with its digest. */
  method PluginDigest(manifest: Fields, files: seq<File>) returns (fed: seq<Byte>)
    ensures fed == Stream(manifest, files)
  {
    fed := LABEL;
    fed := fed + ManifestBytes(manifest);
    ghost var start := fed;
    for i := 0 to |files|
      invariant fed == start + FilesBytes(Contents(files[..i]))
    {
      ghost var before := fed;
      var f := files[i];
      NextFile(start, files, i);
      if f.path != MANIFEST_FILE {
        fed := fed + [0];
        fed := fed + Utf8(f.path);
        fed := fed + [0];
        fed := fed + f.digest;
        FourPieces(before, [0], Utf8(f.path), [0], f.digest);
        assert fed == before + FileBytes(f);
      }
    }
    assert files[..|files|] == files;
    Regroup(LABEL, ManifestBytes(manifest), FilesBytes(Contents(files)));
  }

  // ---------------------------------------------------------------- the bytes tell what was signed

  lemma FileUnique(f: File, g: File, s: seq<Byte>, t: seq<Byte>)
    requires ProperFile(f) && ProperFile(g) && FileBytes(f) + s == FileBytes(g) + t
    ensures f == g && s == t
  {
    var x, y := [0] + f.digest, [0] + g.digest;
    Regroup([0], Utf8(f.path) + x, s);
    Regroup([0], Utf8(g.path) + y, t);
    Regroup(Utf8(f.path), x, s);
    Regroup(Utf8(g.path), y, t);
    SameParts([0], [0], Utf8(f.path) + (x + s), Utf8(g.path) + (y + t));
    Utf8HasNoNul(f.path);
    Utf8HasNoNul(g.path);
    RunUnique(IsNotZero, Utf8(f.path), Utf8(g.path), x + s, y + t);
    Utf8Injective(f.path, g.path);
    SameParts(x, y, s, t);
    SameParts([0], [0], f.digest, g.digest);
  }

  lemma {:induction false} FilesUnique(fs: seq<File>, gs: seq<File>)
    requires (forall f | f in fs :: ProperFile(f)) && (forall g | g in gs :: ProperFile(g))
    requires FilesBytes(fs) == FilesBytes(gs)
    ensures fs == gs
  {
    if fs != [] && gs != [] {
      FileUnique(fs[0], gs[0], FilesBytes(fs[1..]), FilesBytes(gs[1..]));
      FilesUnique(fs[1..], gs[1..]);
      assert fs == [fs[0]] + fs[1..] && gs == [gs[0]] + gs[1..];
    }
  }

  lemma {:induction false} UnsignedReading(manifest: Fields)
    requires ProperFields(manifest)
    ensures ProperFields(Unsigned(manifest)) && ReadFields(Unsigned(manifest)) == ReadFields(manifest) - {SIGNATURE}
  {
    if manifest.Field? {
      UnsignedReading(manifest.others);
      WithoutOne(ReadFields(manifest.others), manifest.key, Read(manifest.value));
    }
  }

  lemma WithoutOne(m: map<Text, Reading>, key: Text, reading: Reading)
    ensures m[key := reading] - {SIGNATURE}
            == if key == SIGNATURE then m - {SIGNATURE} else (m - {SIGNATURE})[key := reading]
  {
  }

  predicate ProperPackage(manifest: Fields, files: seq<File>) {
    ProperFields(manifest) && forall f | f in files :: ProperFile(f)
  }

  lemma FilesStartWithZero(files: seq<File>)
    ensures FilesBytes(files) == [] || FilesBytes(files)[0] == 0
  {
  }

  lemma ManifestBytesHaveNoZero(m: Fields)
    requires ProperFields(m)
    ensures 0 !in ManifestBytes(m)
  {
    UnsignedReading(m);
    CanonicalIsPlain(Object(Unsigned(m)));
    Utf8HasNoNul(Canonical(Object(Unsigned(m))));
  }

  lemma ManifestBytesIffSame(m: Fields, n: Fields)
    requires ProperFields(m) && ProperFields(n)
    ensures ManifestBytes(m) == ManifestBytes(n) <==> ReadFields(m) - {SIGNATURE} == ReadFields(n) - {SIGNATURE}
  {
    var v, w := Object(Unsigned(m)), Object(Unsigned(n));
    UnsignedReading(m);
    UnsignedReading(n);
    CanonicalIffSameReading(v, w);
    if ManifestBytes(m) == ManifestBytes(n) {
      CanonicalIsPlain(v);
      CanonicalIsPlain(w);
      Utf8Injective(Canonical(v), Canonical(w));
    }
  }

  lemma StreamUnique(m: Fields, fs: seq<File>, n: Fields, gs: seq<File>)
    requires ProperPackage(m, fs) && ProperPackage(n, gs) && Stream(m, fs) == Stream(n, gs)
    ensures ManifestBytes(m) == ManifestBytes(n) && Contents(fs) == Contents(gs)
  {
    var s, t := FilesBytes(Contents(fs)), FilesBytes(Contents(gs));
    SameParts(LABEL, LABEL, ManifestBytes(m) + s, ManifestBytes(n) + t);
    ManifestBytesHaveNoZero(m);
    ManifestBytesHaveNoZero(n);
    FilesStartWithZero(Contents(fs));
    FilesStartWithZero(Contents(gs));
    RunUnique(IsNotZero, ManifestBytes(m), ManifestBytes(n), s, t);
    FilesUnique(Contents(fs), Contents(gs));
  }

  /**
   Two packages feed the hash the same bytes exactly if their manifests say the same, signature
   aside, and they hold the same files with the same digests in the same order.
   */
  lemma StreamIffSamePackage(m: Fields, fs: seq<File>, n: Fields, gs: seq<File>)
    requires ProperPackage(m, fs) && ProperPackage(n, gs)
    ensures Stream(m, fs) == Stream(n, gs)
            <==> ReadFields(m) - {SIGNATURE} == ReadFields(n) - {SIGNATURE} && Contents(fs) == Contents(gs)
  {
    ManifestBytesIffSame(m, n);
    if Stream(m, fs) == Stream(n, gs) {
      StreamUnique(m, fs, n, gs);
    }
  }
}
