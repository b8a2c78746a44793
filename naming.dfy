/** The names the processor derives: the `%Y%m%d%H%M%S` timestamp of an archived
    file, the `%Y-%m-%d %H:%M:%S` processing time, and the POSIX path helpers
    `os.path.join`, `os.path.basename`/`split` and `os.path.splitext` it uses to
    place the archive, the output and the metadata file. The clock is not read
    here: every timestamp is a parameter. */
module Naming {
  import opened Text

  /** A reading of `datetime.now()`, to the second. */
  datatype Timestamp = Timestamp(year: nat, month: nat, day: nat, hour: nat, minute: nat, second: nat)
  {
    /** Fields in their calendar ranges, with a four-digit year. */
    predicate Valid()
    {
      1000 <= year <= 9999 && 1 <= month <= 12 && 1 <= day <= 31
      && hour < 24 && minute < 60 && second < 60
    }
  }

  /** Chronological order: field by field, the year first. */
  predicate Before(a: Timestamp, b: Timestamp)
  {
    || a.year < b.year
    || (a.year == b.year && a.month < b.month)
    || (a.year == b.year && a.month == b.month && a.day < b.day)
    || (a.year == b.year && a.month == b.month && a.day == b.day && a.hour < b.hour)
    || (a.year == b.year && a.month == b.month && a.day == b.day && a.hour == b.hour && a.minute < b.minute)
    || (a.year == b.year && a.month == b.month && a.day == b.day && a.hour == b.hour && a.minute == b.minute
        && a.second < b.second)
  }

  function Pow10(w: nat): (p: nat)
    ensures p >= 1
  {
    if w == 0 then 1 else 10 * Pow10(w - 1)
  }

  /** The `w` low decimal digits of `n`, zero-padded: `%0wd`. */
  function Pad(n: nat, w: nat): (s: string)
    ensures |s| == w
  {
    if w == 0 then [] else Pad(n / 10, w - 1) + [Digit(n % 10)]
  }

  /** Padding produces decimal digits only. */
  lemma {:induction false} PadDigits(n: nat, w: nat)
    requires w > 0
    ensures IsDigits(Pad(n, w))
  {
    var s := Pad(n, w);
    if w > 1 {
      PadDigits(n / 10, w - 1);
      var init := Pad(n / 10, w - 1);
      assert s == init + [Digit(n % 10)];
      forall i | 0 <= i < |s| ensures IsDigitChar(s[i]) {
        if i < |init| {
          assert s[i] == init[i];
        }
      }
    }
  }

  /** Digit strings stay digit strings when put together. */
  lemma DigitsConcat(a: string, b: string)
    requires IsDigits(a) && IsDigits(b)
    ensures IsDigits(a + b)
  {
    var s := a + b;
    forall i | 0 <= i < |s| ensures IsDigitChar(s[i]) {
      if i < |a| {
        assert s[i] == a[i];
      } else {
        assert s[i] == b[i - |a|];
      }
    }
  }

  /** `strftime("%Y%m%d%H%M%S")`. */
  function Stamp(t: Timestamp): (s: string)
    ensures |s| == 14
  {
    Pad(t.year, 4) + (Pad(t.month, 2) + (Pad(t.day, 2) + (Pad(t.hour, 2) + (Pad(t.minute, 2) + Pad(t.second, 2)))))
  }

  /** The stamp is fourteen decimal digits. */
  lemma StampDigits(t: Timestamp)
    ensures |Stamp(t)| == 14 && IsDigits(Stamp(t))
  {
    var y, mo, d, h, mi, se := Pad(t.year, 4), Pad(t.month, 2), Pad(t.day, 2), Pad(t.hour, 2), Pad(t.minute, 2), Pad(t.second, 2);
    PadDigits(t.year, 4);
    PadDigits(t.month, 2);
    PadDigits(t.day, 2);
    PadDigits(t.hour, 2);
    PadDigits(t.minute, 2);
    PadDigits(t.second, 2);
    DigitsConcat(mi, se);
    DigitsConcat(h, mi + se);
    DigitsConcat(d, h + (mi + se));
    DigitsConcat(mo, d + (h + (mi + se)));
    DigitsConcat(y, mo + (d + (h + (mi + se))));
  }

  /** `strftime("%Y-%m-%d %H:%M:%S")`, the `processed_time` of a metadata record. */
  function DisplayTime(t: Timestamp): (s: string)
    ensures |s| == 19
  {
    Pad(t.year, 4) + "-" + Pad(t.month, 2) + "-" + Pad(t.day, 2) + " "
      + Pad(t.hour, 2) + ":" + Pad(t.minute, 2) + ":" + Pad(t.second, 2)
  }

  /** The processing time shows the same digits as the archive stamp, with
      separators between the fields. */
  lemma DisplayTimeMatchesStamp(t: Timestamp)
    ensures var s := Stamp(t);
      DisplayTime(t) == s[..4] + "-" + s[4..6] + "-" + s[6..8] + " " + s[8..10] + ":" + s[10..12] + ":" + s[12..]
  {
    var y, mo, d, h, mi, se := Pad(t.year, 4), Pad(t.month, 2), Pad(t.day, 2), Pad(t.hour, 2), Pad(t.minute, 2), Pad(t.second, 2);
    var s := Stamp(t);
    assert s == y + mo + d + h + mi + se;
    assert s[..4] == y && s[4..6] == mo && s[6..8] == d;
    assert s[8..10] == h && s[10..12] == mi && s[12..] == se;
  }

  lemma DigitOrder(a: nat, b: nat)
    requires a < 10 && b < 10
    ensures Digit(a) < Digit(b) <==> a < b
    ensures Digit(a) == Digit(b) <==> a == b
  {
  }

  /** Zero-padded numbers of one width compare as strings as they do as
      numbers, and are equal only when the numbers are. */
  lemma {:induction false} PadOrder(n: nat, m: nat, w: nat)
    requires n < Pow10(w) && m < Pow10(w)
    ensures LexLess(Pad(n, w), Pad(m, w)) <==> n < m
    ensures Pad(n, w) == Pad(m, w) <==> n == m
  {
    if w == 0 {
      LexIrreflexive([]);
    } else {
      PadOrder(n / 10, m / 10, w - 1);
      LexSnoc(Pad(n / 10, w - 1), Pad(m / 10, w - 1), Digit(n % 10), Digit(m % 10));
      DigitOrder(n % 10, m % 10);
      var a, b := Pad(n / 10, w - 1), Pad(m / 10, w - 1);
      if a + [Digit(n % 10)] == b + [Digit(m % 10)] {
        assert a == (a + [Digit(n % 10)])[..w - 1];
        assert b == (b + [Digit(m % 10)])[..w - 1];
        assert Digit(n % 10) == (a + [Digit(n % 10)])[w - 1];
      }
    }
  }

  /** A string extended by one of two strings compares as those two. */
  lemma {:induction false} LexCommonPrefix(p: string, s: string, t: string)
    ensures LexLess(p + s, p + t) <==> LexLess(s, t)
    decreases |p|
  {
    if p != [] {
      assert (p + s)[1..] == p[1..] + s;
      assert (p + t)[1..] == p[1..] + t;
      LexCommonPrefix(p[1..], s, t);
    } else {
      assert p + s == s && p + t == t;
    }
  }

  /** Strings made of two fixed-width parts compare by the first part, then by
      the second. */
  lemma LexPair(a: string, b: string, s: string, t: string)
    requires |a| == |b|
    ensures LexLess(a + s, b + t) <==> LexLess(a, b) || (a == b && LexLess(s, t))
  {
    if a == b {
      LexCommonPrefix(a, s, t);
      LexIrreflexive(a);
    } else {
      LexPrefixDecides(a, b, s, t);
    }
  }

  /** One field's contribution: the first part decides unless it is equal. */
  lemma FieldStep(n: nat, m: nat, w: nat, s: string, t: string)
    requires n < Pow10(w) && m < Pow10(w)
    ensures LexLess(Pad(n, w) + s, Pad(m, w) + t) <==> n < m || (n == m && LexLess(s, t))
    ensures Pad(n, w) + s == Pad(m, w) + t <==> n == m && s == t
  {
    PadOrder(n, m, w);
    LexPair(Pad(n, w), Pad(m, w), s, t);
    if Pad(n, w) + s == Pad(m, w) + t {
      assert Pad(n, w) == (Pad(n, w) + s)[..w] && Pad(m, w) == (Pad(m, w) + t)[..w];
      assert s == (Pad(n, w) + s)[w..] && t == (Pad(m, w) + t)[w..];
    }
  }

  lemma PowFacts()
    ensures Pow10(2) == 100 && Pow10(4) == 10000
  {
  }

  /** What the archive name promises: later stamps sort after earlier ones,
      and two stamps are equal only for the same second. */
  lemma {:induction false} StampOrder(a: Timestamp, b: Timestamp)
    requires a.Valid() && b.Valid()
    ensures LexLess(Stamp(a), Stamp(b)) <==> Before(a, b)
    ensures Stamp(a) == Stamp(b) <==> a == b
  {
    PowFacts();
    var sa5, sb5 := Pad(a.second, 2), Pad(b.second, 2);
    PadOrder(a.second, b.second, 2);
    var sa4, sb4 := Pad(a.minute, 2) + sa5, Pad(b.minute, 2) + sb5;
    FieldStep(a.minute, b.minute, 2, sa5, sb5);
    var sa3, sb3 := Pad(a.hour, 2) + sa4, Pad(b.hour, 2) + sb4;
    FieldStep(a.hour, b.hour, 2, sa4, sb4);
    var sa2, sb2 := Pad(a.day, 2) + sa3, Pad(b.day, 2) + sb3;
    FieldStep(a.day, b.day, 2, sa3, sb3);
    var sa1, sb1 := Pad(a.month, 2) + sa2, Pad(b.month, 2) + sb2;
    FieldStep(a.month, b.month, 2, sa2, sb2);
    FieldStep(a.year, b.year, 4, sa1, sb1);
  }

  /** `os.path.join(dir, name)` on POSIX: an absolute `name` replaces `dir`;
      otherwise a slash is put between them unless `dir` is empty or already
      ends with one. */
  function Join(dir: string, name: string): (p: string)
    ensures |name| <= |p|
  {
    if name != [] && name[0] == '/' then name
    else if dir == [] || dir[|dir| - 1] == '/' then dir + name
    else dir + "/" + name
  }

  /** A relative name joined onto a folder ends the path, after the folder
      and (unless the folder is empty or ends with one) a slash. */
  lemma JoinEnds(dir: string, name: string)
    requires name != [] && name[0] != '/'
    ensures EndsWith(Join(dir, name), name)
    ensures Join(dir, name) == if dir == [] || dir[|dir| - 1] == '/' then dir + name else dir + "/" + name
  {
  }

  /** `os.path.basename(p)`, which is also the tail of `os.path.split(p)`: what
      follows the last slash. */
  function Basename(p: string): (r: string)
    ensures |r| <= |p|
  {
    if p == [] || p[|p| - 1] == '/' then []
    else Basename(p[..|p| - 1]) + [p[|p| - 1]]
  }

  /** The base name has no slash, ends the path, and follows a slash when it
      is not the whole path. */
  lemma {:induction false} BasenameShape(p: string)
    ensures var r := Basename(p);
      && '/' !in r
      && r == p[|p| - |r|..]
      && (|r| < |p| ==> p[|p| - |r| - 1] == '/')
  {
    if p != [] && p[|p| - 1] != '/' {
      var q := p[..|p| - 1];
      BasenameShape(q);
      var r0 := Basename(q);
      var r := Basename(p);
      assert r == r0 + [p[|p| - 1]];
      assert p[|p| - |r|..] == q[|q| - |r0|..] + [p[|p| - 1]];
      if |r| < |p| {
        assert p[|p| - |r| - 1] == q[|q| - |r0| - 1];
      }
    }
  }

  /** Any string that ends with a slash (or is all of `p`) followed by a
      slash-free name is split there: `basename` returns exactly that name. */
  lemma {:induction false} BasenameOfSuffix(p: string, name: string)
    requires '/' !in name && EndsWith(p, name)
    requires |name| < |p| ==> p[|p| - |name| - 1] == '/'
    ensures Basename(p) == name
  {
    if name != [] {
      var q := p[..|p| - 1];
      assert p[|p| - 1] == name[|name| - 1];
      assert q[|q| - (|name| - 1)..] == name[..|name| - 1];
      BasenameOfSuffix(q, name[..|name| - 1]);
    }
  }

  /** Joining a folder and a slash-free name and then taking the basename gives
      the name back. */
  lemma BasenameOfJoin(dir: string, name: string)
    requires name != [] && '/' !in name
    ensures Basename(Join(dir, name)) == name
  {
    var p := Join(dir, name);
    if |name| < |p| {
      assert p[|p| - |name| - 1] == '/';
    }
    BasenameOfSuffix(p, name);
  }

  /** `p.rstrip("/")`: the path with its trailing slashes dropped. */
  function TrimSlashes(p: string): (r: string)
    ensures |r| <= |p| && r == p[..|r|]
    ensures r == [] || r[|r| - 1] != '/'
    ensures forall k :: |r| <= k < |p| ==> p[k] == '/'
  {
    if p != [] && p[|p| - 1] == '/' then TrimSlashes(p[..|p| - 1]) else p
  }

  /** The folder `glob` lists for the pattern made of `dir`, a slash and the
      `*.csv` wildcard: the head of
      `os.path.split` of that pattern, which drops the trailing slashes unless
      nothing else is left. */
  function GlobFolder(dir: string): (r: string)
  {
    var t := TrimSlashes(dir);
    if t == [] then dir + "/" else t
  }

  /** The folder `glob` lists is `dir` without its trailing slashes when `dir`
      has any other character; otherwise (empty or all slashes) it is `dir` with
      one more slash, and it ends with a slash. */
  lemma GlobFolderShape(dir: string)
    ensures GlobFolder(dir) != []
    ensures (exists k :: 0 <= k < |dir| && dir[k] != '/') ==>
      GlobFolder(dir) == TrimSlashes(dir) && GlobFolder(dir)[|GlobFolder(dir)| - 1] != '/'
    ensures (forall k :: 0 <= k < |dir| ==> dir[k] == '/') ==>
      GlobFolder(dir) == dir + "/"
  {
    var t := TrimSlashes(dir);
    if (exists k :: 0 <= k < |dir| && dir[k] != '/') {
      var k :| 0 <= k < |dir| && dir[k] != '/';
      assert k < |t|;
    }
  }

  /** What `glob` yields for a listed name: `os.path.join` of the folder it
      listed and the name, so a folder written with a trailing slash gives the
      same path as without one. */
  lemma GlobJoin(dir: string, name: string)
    requires name != [] && name[0] != '/'
    requires exists k :: 0 <= k < |dir| && dir[k] != '/'
    ensures Join(GlobFolder(dir), name) == TrimSlashes(dir) + "/" + name
    ensures Join(GlobFolder(dir), name) == Join(GlobFolder(dir + "/"), name)
  {
    GlobFolderShape(dir);
    GlobFolderShape(dir + "/");
    var k :| 0 <= k < |dir| && dir[k] != '/';
    assert (dir + "/")[k] != '/';
    assert TrimSlashes(dir + "/") == TrimSlashes(dir) by {
      assert (dir + "/")[..|dir|] == dir;
    }
  }

  /** Position of the last `c` in `s`. */
  function LastIndex(s: string, c: char): (k: int)
    ensures -1 <= k < |s|
    ensures k >= 0 ==> s[k] == c
    ensures forall j :: k < j < |s| ==> s[j] != c
  {
    if s == [] then -1
    else if s[|s| - 1] == c then |s| - 1
    else LastIndex(s[..|s| - 1], c)
  }

  /** The position `os.path.splitext` splits a file name at: the last dot,
      unless only dots precede it (a leading-dot name has no extension). */
  function ExtStart(name: string): (k: nat)
    ensures k <= |name|
  {
    var dot := LastIndex(name, '.');
    if dot > 0 && exists j :: 0 <= j < dot && name[j] != '.' then dot else |name|
  }

  /** The root of `os.path.splitext(name)`. */
  function Stem(name: string): (r: string)
  {
    name[..ExtStart(name)]
  }

  /** The extension of `os.path.splitext(name)`. */
  function Extension(name: string): (e: string)
  {
    name[ExtStart(name)..]
  }

  /** `splitext` cuts the name in two: root and extension make it up again,
      the extension is empty or one dot followed by no dot, and the root is
      never emptied down to dots only when an extension is split off. */
  lemma SplitextParts(name: string)
    ensures Stem(name) + Extension(name) == name
    ensures Extension(name) == [] || (Extension(name)[0] == '.' && '.' !in Extension(name)[1..])
    ensures Extension(name) != [] ==> exists j :: 0 <= j < |Stem(name)| && Stem(name)[j] != '.'
  {
    var k := ExtStart(name);
    assert name[..k] + name[k..] == name;
    if k < |name| {
      var e := name[k..];
      forall j | 1 <= j < |e| ensures e[j] != '.' {
        assert e[j] == name[k + j];
      }
      assert e[1..] == name[k + 1..];
    }
  }

  /** The name under which an archived file is kept: the stamp, an
      underscore, then the original base name. */
  function ArchiveName(t: Timestamp, source: string): string
  {
    Stamp(t) + ("_" + Basename(source))
  }

  /** `destination_folder/<stamp>_<basename>` */
  function ArchivePath(folder: string, t: Timestamp, source: string): (p: string)
  {
    Join(folder, ArchiveName(t, source))
  }

  /** `output_dir/<basename>`, where `save_data` writes the processed table. */
  function OutputPath(outputDir: string, file: string): string
  {
    Join(outputDir, Basename(file))
  }

  /** The processed table is saved under the source file's own base name. */
  lemma OutputPathName(outputDir: string, file: string)
    requires Basename(file) != []
    ensures Basename(OutputPath(outputDir, file)) == Basename(file)
  {
    BasenameShape(file);
    BasenameOfJoin(outputDir, Basename(file));
  }

  /** `metadata_dir/<stem>_metadata.json`, where `save_metadata` writes. */
  function MetadataPath(metadataDir: string, file: string): string
  {
    Join(metadataDir, Stem(Basename(file)) + "_metadata.json")
  }

  /** The three parts of `<stamp>_<basename>`, and no slash in it when its
      parts have none. */
  lemma UnderscoreJoin(st: string, b: string)
    ensures var n := st + ("_" + b);
      && n[..|st|] == st && n[|st|] == '_' && n[|st| + 1..] == b
      && ('/' !in st && '/' !in b ==> '/' !in n)
  {
    var n := st + ("_" + b);
    if '/' !in st && '/' !in b {
      forall i | 0 <= i < |n| ensures n[i] != '/' {
        if i < |st| {
          assert n[i] == st[i];
        } else if i > |st| {
          assert n[i] == b[i - |st| - 1];
        }
      }
    }
  }

  /** The archived file sits in the folder under its new name, which starts
      with the fourteen-digit stamp and an underscore and ends with the
      unchanged base name. */
  lemma ArchiveNameParts(folder: string, t: Timestamp, source: string)
    ensures var n := ArchiveName(t, source);
      && Basename(ArchivePath(folder, t, source)) == n
      && n[..14] == Stamp(t) && n[14] == '_' && n[15..] == Basename(source)
  {
    var st, b := Stamp(t), Basename(source);
    StampDigits(t);
    BasenameShape(source);
    assert '/' !in st by {
      forall i | 0 <= i < |st| ensures st[i] != '/' {
        assert IsDigitChar(st[i]);
      }
    }
    UnderscoreJoin(st, b);
    BasenameOfJoin(folder, st + ("_" + b));
  }

  /** Strings that start with different prefixes of one length differ, and
      compare as their prefixes do. */
  lemma PrefixesDecide(a: string, b: string, s: string, t: string)
    requires |a| == |b| && a != b
    ensures a + s != b + t
    ensures LexLess(a + s, b + t) <==> LexLess(a, b)
  {
    assert (a + s)[..|a|] == a && (b + t)[..|b|] == b;
    LexPrefixDecides(a, b, s, t);
  }

  /** Archives made at different seconds get different names, ordered as the
      seconds are, whatever the two base names: the stamp alone decides. */
  lemma ArchiveOrder(a: Timestamp, b: Timestamp, sa: string, sb: string)
    requires a.Valid() && b.Valid() && a != b
    ensures ArchiveName(a, sa) != ArchiveName(b, sb)
    ensures LexLess(ArchiveName(a, sa), ArchiveName(b, sb)) <==> Before(a, b)
  {
    StampOrder(a, b);
    PrefixesDecide(Stamp(a), Stamp(b), "_" + Basename(sa), "_" + Basename(sb));
  }

  /** The metadata path of a file whose base name has the given slash-free
      stem. */
  lemma MetadataPathOfStem(dir: string, file: string, stem: string)
    requires Stem(Basename(file)) == stem && '/' !in stem
    requires dir != [] && dir[|dir| - 1] != '/'
    ensures MetadataPath(dir, file) == dir + "/" + stem + "_metadata.json"
  {
    var name := stem + "_metadata.json";
    assert name[0] != '/' by {
      if stem != [] {
        assert name[0] == stem[0] && stem[0] in stem;
      }
    }
    assert Join(dir, name) == dir + "/" + name;
  }

  /** For `<folder>/<name>.csv` the metadata file is
      `<metadata_dir>/<name>_metadata.json`. */
  lemma MetadataPathOfCsv(dir: string, folder: string, name: string)
    requires name != [] && '.' !in name && '/' !in name
    requires dir != [] && dir[|dir| - 1] != '/'
    ensures MetadataPath(dir, folder + "/" + name + ".csv") == dir + "/" + name + "_metadata.json"
  {
    var file := name + ".csv";
    assert '/' !in file by {
      forall i | 0 <= i < |file| ensures file[i] != '/' {
        if i < |name| {
          assert file[i] == name[i];
        }
      }
    }
    assert folder + "/" + name + ".csv" == folder + "/" + file;
    BasenameOfSuffix(folder + "/" + file, file);
    StemOfCsv(name);
    MetadataPathOfStem(dir, folder + "/" + file, name);
  }

  /** The stem of `<name>.csv` is `<name>` when the name has a character other
      than a dot. */
  lemma StemOfCsv(name: string)
    requires '.' !in name && name != []
    ensures Stem(name + ".csv") == name
  {
    var f := name + ".csv";
    LastIndexBefore(name, "csv", '.');
    assert f == name + ['.'] + "csv";
    assert f[0] == name[0] != '.';
    assert ExtStart(f) == |name|;
  }

  lemma {:induction false} LastIndexBefore(s: string, t: string, c: char)
    requires c !in t
    ensures LastIndex(s + [c] + t, c) == |s|
  {
    if t != [] {
      var u := s + [c] + t;
      assert u[..|u| - 1] == s + [c] + t[..|t| - 1];
      assert u[|u| - 1] == t[|t| - 1];
      LastIndexBefore(s, t[..|t| - 1], c);
    }
  }

  /** A name made of one leading dot and no other has no extension. */
  lemma StemOfHidden(name: string)
    requires '.' !in name
    ensures Stem(['.'] + name) == ['.'] + name
  {
    LastIndexBefore([], name, '.');
    assert [] + ['.'] + name == ['.'] + name;
  }

  /** A hidden file has no extension: for `<folder>/.<name>` the metadata file
      is `<metadata_dir>/.<name>_metadata.json`, as for a listed `.csv`. */
  lemma MetadataPathOfHiddenFile(dir: string, folder: string, name: string)
    requires '.' !in name && '/' !in name
    requires dir != [] && dir[|dir| - 1] != '/'
    ensures MetadataPath(dir, folder + "/." + name) == dir + "/." + name + "_metadata.json"
  {
    var file := ['.'] + name;
    assert '/' !in file by {
      forall i | 0 <= i < |file| ensures file[i] != '/' {
        if i > 0 {
          assert file[i] == name[i - 1];
        }
      }
    }
    assert folder + "/." + name == folder + "/" + file;
    BasenameOfSuffix(folder + "/" + file, file);
    StemOfHidden(name);
    MetadataPathOfStem(dir, folder + "/" + file, file);
  }
}
