/**
 * The pure rules of the folder-cleaning utility: file-name normalisation
 * (non-alphanumerics to `_`, Cyrillic transliterated), classification of a
 * file by its suffix, the target path of a moved file, and the ordering of the
 * folder list by depth.
 *
 * `str.isalnum` is a parameter `isAlnum`; the facts the properties rely on are
 * collected in `AlnumFacts`.
 */
module Clean {
  import opened Wrappers
  import opened Text

  // ---------------------------------------------------------------------------
  // The transliteration table

  const Cyrillic: string := "абвгдеёжзийклмнопрстуфхцчшщъыьэюяєіїґ"
  /** `c.upper()` of each letter of `Cyrillic`, position by position. */
  const CyrillicUpper: string := "АБВГДЕЁЖЗИЙКЛМНОПРСТУФХЦЧШЩЪЫЬЭЮЯЄІЇҐ"
  const Translation: seq<string> := ["a", "b", "v", "g", "d", "e", "e", "j", "z", "i", "j", "k", "l", "m", "n", "o", "p", "r", "s",
                                     "t", "u", "f", "h", "ts", "ch", "sh", "sch", "", "y", "", "e", "yu", "ya", "je", "i", "ji", "g"]

  /** Code point of `Cyrillic[k]`. */
  function LowerCode(k: nat): (r: int)
    ensures 0x400 <= r < 0x500
  {
    if k < 6 then 0x430 + k
    else if k == 6 then 0x451
    else if k <= 32 then 0x436 + (k - 7)
    else if k == 33 then 0x454
    else if k == 34 then 0x456
    else if k == 35 then 0x457
    else 0x491
  }

  /** Code point of `CyrillicUpper[k]`. */
  function UpperCode(k: nat): (r: int)
    ensures 0x400 <= r < 0x500
  {
    if k < 6 then 0x410 + k
    else if k == 6 then 0x401
    else if k <= 32 then 0x416 + (k - 7)
    else if k == 33 then 0x404
    else if k == 34 then 0x406
    else if k == 35 then 0x407
    else 0x490
  }

  lemma LetterCodes()
    ensures |Cyrillic| == 37 && |CyrillicUpper| == 37 && |Translation| == 37
    ensures forall k :: 0 <= k < 37 ==> Cyrillic[k] as int == LowerCode(k)
    ensures forall k :: 0 <= k < 37 ==> CyrillicUpper[k] as int == UpperCode(k)
  {
    assert Cyrillic == seq(37, (k: nat) => LowerCode(k) as char);
    assert CyrillicUpper == seq(37, (k: nat) => UpperCode(k) as char);
  }

  /** The 74 letters of the table are pairwise different, so no entry overwrites another. */
  lemma LettersDistinct()
    ensures |Cyrillic| == 37 && |CyrillicUpper| == 37 && |Translation| == 37
    ensures forall i, j :: 0 <= i < j < 37 ==> Cyrillic[i] != Cyrillic[j] && CyrillicUpper[i] != CyrillicUpper[j]
    ensures forall i, j :: 0 <= i < 37 && 0 <= j < 37 ==> Cyrillic[i] != CyrillicUpper[j]
    ensures forall i :: 0 <= i < 37 ==> Cyrillic[i] as int >= 0x400 && CyrillicUpper[i] as int >= 0x400
  {
    LetterCodes();
  }

  /** Every transliteration is made of lower-case ASCII letters. */
  lemma TranslationIsAscii()
    ensures |Translation| == 37
    ensures forall k, i :: 0 <= k < 37 && 0 <= i < |Translation[k]| ==> IsAsciiLower(Translation[k][i])
  {
  }

  /** The `TRANS` dictionary after the first `k` pairs have been entered. */
  function TableUpTo(k: nat): map<char, string>
    requires k <= |Cyrillic| && k <= |CyrillicUpper| && k <= |Translation|
  {
    if k == 0 then map[]
    else TableUpTo(k - 1)[Cyrillic[k - 1] := Translation[k - 1]][CyrillicUpper[k - 1] := Upper(Translation[k - 1])]
  }

  /** Number of letter pairs in the table. */
  function TableSize(): (n: nat)
    ensures n == |Cyrillic| == |CyrillicUpper| == |Translation| == 37
  {
    LetterCodes();
    |Translation|
  }

  /** The finished `TRANS` dictionary. */
  function TransTable(): map<char, string> {
    TableUpTo(TableSize())
  }

  lemma {:induction false} TableUpToKeys(k: nat)
    requires k <= 37
    ensures |Cyrillic| == 37 && |CyrillicUpper| == 37 && |Translation| == 37
    ensures forall c :: c in TableUpTo(k) ==> c as int >= 0x400
  {
    LettersDistinct();
    if k > 0 {
      TableUpToKeys(k - 1);
    }
  }

  lemma {:induction false} TableUpToLookup(k: nat, j: nat)
    requires j < k <= 37
    ensures |Cyrillic| == 37 && |CyrillicUpper| == 37 && |Translation| == 37
    ensures Cyrillic[j] in TableUpTo(k) && TableUpTo(k)[Cyrillic[j]] == Translation[j]
    ensures CyrillicUpper[j] in TableUpTo(k) && TableUpTo(k)[CyrillicUpper[j]] == Upper(Translation[j])
  {
    LettersDistinct();
    if j < k - 1 {
      TableUpToLookup(k - 1, j);
    }
  }

  /** Each Cyrillic letter maps to its transliteration and its capital to the capitalised one; nothing else is a key. */
  lemma TableEntries()
    ensures |Cyrillic| == 37 && |CyrillicUpper| == 37 && |Translation| == 37
    ensures forall k :: 0 <= k < 37 ==> Cyrillic[k] in TransTable() && TransTable()[Cyrillic[k]] == Translation[k]
    ensures forall k :: 0 <= k < 37 ==> CyrillicUpper[k] in TransTable() && TransTable()[CyrillicUpper[k]] == Upper(Translation[k])
    ensures forall c :: c in TransTable() ==> c as int >= 0x400
  {
    LettersDistinct();
    TableUpToKeys(37);
    assert TransTable() == TableUpTo(37);
    forall k | 0 <= k < 37
      ensures Cyrillic[k] in TransTable() && TransTable()[Cyrillic[k]] == Translation[k]
      ensures CyrillicUpper[k] in TransTable() && TransTable()[CyrillicUpper[k]] == Upper(Translation[k])
    {
      TableUpToLookup(37, k);
    }
  }

  /** Characters below the Cyrillic block (ASCII among them) are not keys of the table. */
  lemma NotAKey(c: char)
    requires c as int < 0x400
    ensures c !in TransTable()
  {
    TableUpToKeys(37);
    assert TransTable() == TableUpTo(37);
  }

  // ---------------------------------------------------------------------------
  // normalize

  /** `str.translate`: each character that is a key of `table` is replaced by its entry. */
  function Translate(s: string, table: map<char, string>): string {
    if s == [] then []
    else (if s[0] in table then table[s[0]] else [s[0]]) + Translate(s[1..], table)
  }

  lemma {:induction false} TranslateAppend(a: string, b: string, table: map<char, string>)
    ensures Translate(a + b, table) == Translate(a, table) + Translate(b, table)
    decreases |a|
  {
    if a == [] {
      assert a + b == b;
    } else {
      assert (a + b)[1..] == a[1..] + b;
      TranslateAppend(a[1..], b, table);
    }
  }

  /** What normalisation makes of one character. */
  function NormalizeChar(c: char, isAlnum: char -> bool): string {
    if !isAlnum(c) then "_"
    else if c in TransTable() then TransTable()[c]
    else [c]
  }

  /** Reference definition of `normalize`: every character is rewritten on its own. */
  function Normalized(name: string, isAlnum: char -> bool): string {
    if name == [] then [] else NormalizeChar(name[0], isAlnum) + Normalized(name[1..], isAlnum)
  }

  lemma {:induction false} NormalizedAppend(a: string, b: string, isAlnum: char -> bool)
    ensures Normalized(a + b, isAlnum) == Normalized(a, isAlnum) + Normalized(b, isAlnum)
    decreases |a|
  {
    if a == [] {
      assert a + b == b;
    } else {
      var ab := a + b;
      assert ab[0] == a[0] && ab[1..] == a[1..] + b;
      NormalizedAppend(a[1..], b, isAlnum);
      assert Normalized(ab, isAlnum) == NormalizeChar(a[0], isAlnum) + Normalized(a[1..] + b, isAlnum);
    }
  }

  /** `normalize(name)` as written: mask non-alphanumerics, build `TRANS`, then translate. */
  method Normalize(name: string, isAlnum: char -> bool) returns (r: string)
    ensures r == Normalized(name, isAlnum)
  {
    var newname := "";
    var i := 0;
    while i < |name|
      invariant 0 <= i <= |name|
      invariant |newname| == i
      invariant forall j :: 0 <= j < i ==> newname[j] == if isAlnum(name[j]) then name[j] else '_'
    {
      newname := newname + [if isAlnum(name[i]) then name[i] else '_'];
      i := i + 1;
    }

    LetterCodes();
    var trans: map<char, string> := map[];
    var k := 0;
    while k < |Cyrillic|
      invariant 0 <= k <= 37
      invariant trans == TableUpTo(k)
    {
      trans := trans[Cyrillic[k] := Translation[k]];
      trans := trans[CyrillicUpper[k] := Upper(Translation[k])];
      k := k + 1;
    }

    r := Translate(newname, trans);
    MaskThenTranslate(name, newname, isAlnum);
  }

  lemma {:induction false} MaskThenTranslate(name: string, masked: string, isAlnum: char -> bool)
    requires |masked| == |name|
    requires forall j :: 0 <= j < |name| ==> masked[j] == if isAlnum(name[j]) then name[j] else '_'
    ensures Translate(masked, TransTable()) == Normalized(name, isAlnum)
    decreases |name|
  {
    if name != [] {
      NotAKey('_');
      MaskThenTranslate(name[1..], masked[1..], isAlnum);
    }
  }

  // ---------------------------------------------------------------------------
  // Properties of normalisation

  predicate IsAsciiLetter(c: char) { IsAsciiLower(c) || IsAsciiUpper(c) }

  /** ASCII punctuation, `_` and `.` included. */
  predicate IsAsciiPunct(c: char) {
    ('!' <= c <= '/') || (':' <= c <= '@') || ('[' <= c <= '`') || ('{' <= c <= '~')
  }

  /** What the model assumes of `str.isalnum`. */
  ghost predicate AlnumFacts(isAlnum: char -> bool) {
    && (forall c :: IsAsciiLetter(c) || IsAsciiDigit(c) ==> isAlnum(c))
    && (forall k :: 0 <= k < |Cyrillic| ==> isAlnum(Cyrillic[k]))
    && (forall k :: 0 <= k < |CyrillicUpper| ==> isAlnum(CyrillicUpper[k]))
    && (forall c :: IsAsciiPunct(c) || IsSpace(c) ==> !isAlnum(c))
  }

  /** A character that is not alphanumeric becomes exactly one `_`, whatever surrounds it. */
  lemma NonAlnumToUnderscore(a: string, c: char, b: string, isAlnum: char -> bool)
    requires !isAlnum(c)
    ensures Normalized(a + [c] + b, isAlnum) == Normalized(a, isAlnum) + "_" + Normalized(b, isAlnum)
  {
    NormalizedAppend(a + [c], b, isAlnum);
    NormalizedAppend(a, [c], isAlnum);
  }

  /** Each Cyrillic letter becomes its transliteration, each capital the upper-cased transliteration. */
  lemma CyrillicTransliterated(k: nat, isAlnum: char -> bool)
    requires AlnumFacts(isAlnum) && k < 37
    ensures |Cyrillic| == 37 && |CyrillicUpper| == 37 && |Translation| == 37
    ensures Normalized([Cyrillic[k]], isAlnum) == Translation[k]
    ensures Normalized([CyrillicUpper[k]], isAlnum) == Upper(Translation[k])
  {
    TableEntries();
  }

  /** The hard and soft signs (ъ, ь, Ъ, Ь) disappear. */
  lemma SignsDeleted(isAlnum: char -> bool)
    requires AlnumFacts(isAlnum)
    ensures Normalized("ъ", isAlnum) == "" && Normalized("ь", isAlnum) == ""
    ensures Normalized("Ъ", isAlnum) == "" && Normalized("Ь", isAlnum) == ""
  {
    CyrillicTransliterated(27, isAlnum);
    CyrillicTransliterated(29, isAlnum);
  }

  predicate PlainName(name: string) {
    forall i :: 0 <= i < |name| ==> IsAsciiLetter(name[i]) || IsAsciiDigit(name[i]) || name[i] == '_'
  }

  /** A name made of ASCII letters, digits and `_` is left as it is. */
  lemma {:induction false} PlainNameUnchanged(name: string, isAlnum: char -> bool)
    requires AlnumFacts(isAlnum) && PlainName(name)
    ensures Normalized(name, isAlnum) == name
    decreases |name|
  {
    if name != [] {
      NotAKey(name[0]);
      assert IsAsciiPunct('_');
      PlainNameUnchanged(name[1..], isAlnum);
    }
  }

  /** What one character becomes is made of `_` and alphanumerics only. */
  lemma NormalizeCharSafe(c: char, isAlnum: char -> bool)
    requires AlnumFacts(isAlnum)
    ensures forall i :: 0 <= i < |NormalizeChar(c, isAlnum)| ==>
      NormalizeChar(c, isAlnum)[i] == '_' || isAlnum(NormalizeChar(c, isAlnum)[i])
  {
    if isAlnum(c) && c in TransTable() {
      TableKeyIsLetter(c);
      var k :| 0 <= k < 37 && (c == Cyrillic[k] || c == CyrillicUpper[k]);
      TableUpToLookup(37, k);
      TranslationIsAscii();
      var t, r := Translation[k], NormalizeChar(c, isAlnum);
      assert r == t || r == Upper(t);
      forall i | 0 <= i < |r| ensures isAlnum(r[i]) {
        assert IsAsciiLower(t[i]);
        assert IsAsciiLetter(r[i]);
      }
    }
  }

  /** A normalised name holds only alphanumerics and `_` (so, in particular, no `.`). */
  lemma {:induction false} NormalizedIsSafe(name: string, isAlnum: char -> bool)
    requires AlnumFacts(isAlnum)
    ensures forall i :: 0 <= i < |Normalized(name, isAlnum)| ==>
      var c := Normalized(name, isAlnum)[i]; c == '_' || isAlnum(c)
    decreases |name|
  {
    if name != [] {
      NormalizedIsSafe(name[1..], isAlnum);
      NormalizeCharSafe(name[0], isAlnum);
      var h, t := NormalizeChar(name[0], isAlnum), Normalized(name[1..], isAlnum);
      assert Normalized(name, isAlnum) == h + t;
      forall i | 0 <= i < |h + t| ensures (h + t)[i] == '_' || isAlnum((h + t)[i]) {
        if i >= |h| {
          assert (h + t)[i] == t[i - |h|];
        }
      }
    }
  }

  lemma TableKeyIsLetter(c: char)
    requires c in TransTable()
    ensures exists k :: 0 <= k < 37 && (c == Cyrillic[k] || c == CyrillicUpper[k])
  {
    LetterCodes();
    TableUpToKeyIsLetter(37, c);
  }

  lemma {:induction false} TableUpToKeyIsLetter(n: nat, c: char)
    requires n <= 37 && |Cyrillic| == 37 && |CyrillicUpper| == 37 && |Translation| == 37
    requires c in TableUpTo(n)
    ensures exists k :: 0 <= k < n && (c == Cyrillic[k] || c == CyrillicUpper[k])
  {
    if c != Cyrillic[n - 1] && c != CyrillicUpper[n - 1] {
      TableUpToKeyIsLetter(n - 1, c);
    }
  }

  // ---------------------------------------------------------------------------
  // Paths (the parts of `pathlib.Path` the rules use)

  datatype FilePath = FilePath(parts: seq<string>)

  /** `path.name`: the last component, or "" for a path without components. */
  function Name(p: FilePath): string {
    if p.parts == [] then "" else p.parts[|p.parts| - 1]
  }

  /** `path.parent` (the parent of the root is the root). */
  function Parent(p: FilePath): FilePath {
    if p.parts == [] then p else FilePath(p.parts[..|p.parts| - 1])
  }

  /** `path / name`; like pathlib, an empty name adds no component. */
  function Join(p: FilePath, name: string): FilePath {
    if name == "" then p else FilePath(p.parts + [name])
  }

  /** `len(path.parts)` */
  function Depth(p: FilePath): nat {
    |p.parts|
  }

  /** `name.rfind('.')`: the index of the last dot, -1 when there is none. */
  function LastDot(name: string): (i: int)
    ensures -1 <= i < |name|
    ensures i >= 0 ==> name[i] == '.'
    ensures forall j :: i < j < |name| ==> name[j] != '.'
  {
    if name == [] then -1
    else if name[|name| - 1] == '.' then |name| - 1
    else LastDot(name[..|name| - 1])
  }

  /** `path.suffix` of a file name: from the last dot on, unless that dot is first or last. */
  function Suffix(name: string): string {
    var i := LastDot(name);
    if 0 < i < |name| - 1 then name[i..] else ""
  }

  /** `path.stem` of a file name. */
  function Stem(name: string): string {
    var i := LastDot(name);
    if 0 < i < |name| - 1 then name[..i] else name
  }

  /** The stem and the suffix are the name cut in two; a suffix is a dot and at least one more character. */
  lemma StemAndSuffix(name: string)
    ensures Stem(name) + Suffix(name) == name
    ensures Suffix(name) != "" ==> |Suffix(name)| >= 2 && Suffix(name)[0] == '.' && Stem(name) != ""
    ensures forall j :: 1 <= j < |Suffix(name)| ==> Suffix(name)[j] != '.'
  {
  }

  predicate NoDot(s: string) {
    forall j :: 0 <= j < |s| ==> s[j] != '.'
  }

  lemma {:induction false} LastDotOfDotless(s: string)
    requires NoDot(s)
    ensures LastDot(s) == -1
    decreases |s|
  {
    if s != [] {
      LastDotOfDotless(s[..|s| - 1]);
    }
  }

  lemma LastDotAfterDotless(stem: string, suffix: string)
    requires NoDot(stem) && suffix != [] && suffix[0] == '.'
    requires forall j :: 1 <= j < |suffix| ==> suffix[j] != '.'
    ensures LastDot(stem + suffix) == |stem|
  {
    var n := stem + suffix;
    assert n[|stem|] == '.';
    assert forall j :: |stem| < j < |n| ==> n[j] == suffix[j - |stem|];
    assert forall j :: 0 <= j < |stem| ==> n[j] == stem[j];
  }

  // ---------------------------------------------------------------------------
  // Classification by suffix

  const SuffixCategory: map<string, string> := map[
    "JPEG" := "images", "PNG" := "images", "JPG" := "images", "SVG" := "images", "BMP" := "images",
    "AVI" := "video", "MP4" := "video", "MOV" := "video", "MKV" := "video",
    "DOC" := "documents", "DOCX" := "documents", "TXT" := "documents", "PDF" := "documents",
    "XLS" := "documents", "XLSX" := "documents", "PPTX" := "documents",
    "MP3" := "audio", "OGG" := "audio", "WAV" := "audio", "AMR" := "audio",
    "ZIP" := "archives", "GZ" := "archives", "TAR" := "archives"]

  const Unknown := "unknown"
  /** The keys of `files_dict`. */
  const Buckets: set<string> := {"images", "video", "documents", "audio", "archives", Unknown}

  /** Every category a suffix maps to is a bucket of the file lists, so appending to it cannot fail. */
  lemma CategoriesAreBuckets()
    ensures forall suf :: suf in SuffixCategory ==> SuffixCategory[suf] in Buckets && SuffixCategory[suf] != Unknown
  {
  }

  /** `path.suffix[1:].upper()`: the suffix without its dot, in capitals. */
  function SuffixKey(p: FilePath): string {
    var suf := Suffix(Name(p));
    if suf == "" then "" else Upper(suf[1..])
  }

  /** The bucket `select_file` puts a file with this suffix key into. */
  function Category(key: string): (c: string)
    ensures c in Buckets
    ensures c == Unknown <==> key !in SuffixCategory
  {
    CategoriesAreBuckets();
    if key in SuffixCategory then SuffixCategory[key] else Unknown
  }

  /** A file without a suffix is always unknown. */
  lemma NoSuffixIsUnknown(p: FilePath)
    requires Suffix(Name(p)) == ""
    ensures Category(SuffixKey(p)) == Unknown
  {
    assert "" !in SuffixCategory;
  }

  /** The module-level state of the utility: `files_dict`, the two suffix sets and `folders_list`. */
  class Sorter {
    var files: map<string, seq<FilePath>>
    var knownSuffix: set<string>
    var unknownSuffix: set<string>
    var folders: seq<FilePath>

    ghost predicate Valid()
      reads this
    {
      files.Keys == Buckets
    }

    constructor ()
      ensures Valid()
      ensures forall b :: b in Buckets ==> files[b] == []
      ensures knownSuffix == {} && unknownSuffix == {} && folders == []
    {
      files := map b | b in Buckets :: [];
      knownSuffix, unknownSuffix := {}, {};
      folders := [];
    }

    /** `select_file(path)`: one bucket grows by `path`, the suffix goes to the known or unknown set. */
    method SelectFile(path: FilePath)
      requires Valid()
      modifies this
      ensures Valid() && folders == old(folders)
      ensures var key := SuffixKey(path);
        && files == old(files)[Category(key) := old(files)[Category(key)] + [path]]
        && (key in SuffixCategory ==> knownSuffix == old(knownSuffix) + {key} && unknownSuffix == old(unknownSuffix))
        && (key !in SuffixCategory ==> unknownSuffix == old(unknownSuffix) + {key} && knownSuffix == old(knownSuffix))
    {
      var suf := SuffixKey(path);
      if suf in SuffixCategory {
        var categ := SuffixCategory[suf];
        CategoriesAreBuckets();
        files := files[categ := files[categ] + [path]];
        knownSuffix := knownSuffix + {suf};
      } else {
        files := files[Unknown := files[Unknown] + [path]];
        unknownSuffix := unknownSuffix + {suf};
      }
    }

    /** The sort at the end of `view_folder`: deepest folders first, equal depths in their old order. */
    method SortFolders()
      modifies this
      ensures folders == SortByDepth(old(folders))
      ensures files == old(files) && knownSuffix == old(knownSuffix) && unknownSuffix == old(unknownSuffix)
    {
      folders := SortByDepth(folders);
    }
  }

  /** After `select_file` exactly one bucket is one file longer and the others are unchanged. */
  lemma SelectFileGrowsOneBucket(before: map<string, seq<FilePath>>, path: FilePath, b: string)
    requires before.Keys == Buckets && b in Buckets
    ensures var after := before[Category(SuffixKey(path)) := before[Category(SuffixKey(path))] + [path]];
      && after.Keys == Buckets
      && (b == Category(SuffixKey(path)) ==> after[b] == before[b] + [path])
      && (b != Category(SuffixKey(path)) ==> after[b] == before[b])
  {
  }

  // ---------------------------------------------------------------------------
  // Where move_files puts a file

  /** `normalize(file.stem) + file.suffix` */
  function NewName(file: FilePath, isAlnum: char -> bool): string {
    Normalized(Stem(Name(file)), isAlnum) + Suffix(Name(file))
  }

  /** The new path of `file`, kept in `categ`, when the folder being cleaned is `root`. */
  function MoveTarget(root: FilePath, categ: string, file: FilePath, isAlnum: char -> bool): FilePath {
    if categ != Unknown then Join(Join(root, categ), NewName(file, isAlnum))
    else Join(Parent(file), NewName(file, isAlnum))
  }

  /**
   * A sorted file lands directly in `root/categ`, an unknown one stays in its own folder;
   * its stem is normalised and, when the normalised stem is not empty, its suffix is kept.
   * A name that normalises to nothing adds no component, so the target is the folder itself.
   */
  lemma MoveTargetShape(root: FilePath, categ: string, file: FilePath, isAlnum: char -> bool)
    requires AlnumFacts(isAlnum)
    ensures var t := MoveTarget(root, categ, file, isAlnum);
      && (NewName(file, isAlnum) == "" ==>
            t == if categ != Unknown then Join(root, categ) else Parent(file))
      && (NewName(file, isAlnum) != "" ==>
            && Name(t) == NewName(file, isAlnum)
            && (categ != Unknown && categ != "" ==> Parent(t) == Join(root, categ) && Depth(t) == Depth(root) + 2)
            && (categ == Unknown ==> Parent(t) == Parent(file)))
      && (Normalized(Stem(Name(file)), isAlnum) != "" ==>
            Suffix(Name(t)) == Suffix(Name(file)) && Stem(Name(t)) == Normalized(Stem(Name(file)), isAlnum))
  {
    var t := MoveTarget(root, categ, file, isAlnum);
    var ns := Normalized(Stem(Name(file)), isAlnum);
    var suf := Suffix(Name(file));
    if ns + suf != "" {
      assert Name(t) == ns + suf;
      assert Parent(t).parts == t.parts[..|t.parts| - 1];
    }
    NormalizedIsSafe(Stem(Name(file)), isAlnum);
    assert NoDot(ns) by {
      forall j | 0 <= j < |ns| ensures ns[j] != '.' {
        assert IsAsciiPunct('.');
      }
    }
    StemAndSuffix(Name(file));
    if ns != "" {
      if suf == "" {
        LastDotOfDotless(ns);
        assert ns + suf == ns;
      } else {
        LastDotAfterDotless(ns, suf);
        assert (ns + suf)[|ns|..] == suf;
        assert (ns + suf)[..|ns|] == ns;
      }
    }
  }

  // ---------------------------------------------------------------------------
  // folders_list.sort(key=lambda p: len(p.parts), reverse=True)

  /** Puts `p` after every folder at least as deep, before the first shallower one. */
  function InsertByDepth(p: FilePath, s: seq<FilePath>): seq<FilePath> {
    if s == [] then [p]
    else if Depth(s[0]) >= Depth(p) then [s[0]] + InsertByDepth(p, s[1..])
    else [p] + s
  }

  /** A stable sort on decreasing depth (Python's `list.sort` is stable, also with `reverse=True`). */
  function SortByDepth(s: seq<FilePath>): seq<FilePath> {
    if s == [] then [] else InsertByDepth(s[|s| - 1], SortByDepth(s[..|s| - 1]))
  }

  predicate DeepestFirst(s: seq<FilePath>) {
    forall i, j :: 0 <= i < j < |s| ==> Depth(s[i]) >= Depth(s[j])
  }

  /** The folders of depth `d`, in order. */
  function AtDepth(s: seq<FilePath>, d: nat): seq<FilePath> {
    if s == [] then [] else (if Depth(s[0]) == d then [s[0]] else []) + AtDepth(s[1..], d)
  }

  /** Inserting adds exactly `p`. */
  lemma {:induction false} InsertPermutes(p: FilePath, s: seq<FilePath>)
    ensures multiset(InsertByDepth(p, s)) == multiset(s) + multiset{p}
    decreases |s|
  {
    if s != [] && Depth(s[0]) >= Depth(p) {
      InsertPermutes(p, s[1..]);
      assert s == [s[0]] + s[1..];
    }
  }

  lemma {:induction false} InsertKeepsOrder(p: FilePath, s: seq<FilePath>)
    requires DeepestFirst(s)
    ensures DeepestFirst(InsertByDepth(p, s))
    ensures multiset(InsertByDepth(p, s)) == multiset(s) + multiset{p}
    decreases |s|
  {
    InsertPermutes(p, s);
    if s != [] && Depth(s[0]) >= Depth(p) {
      var t := s[1..];
      InsertKeepsOrder(p, t);
      InsertPermutes(p, t);
      var r := InsertByDepth(p, t);
      forall j | 0 <= j < |r| ensures Depth(s[0]) >= Depth(r[j]) {
        assert r[j] in multiset(t) + multiset{p};
        if r[j] != p {
          var k :| 0 <= k < |t| && t[k] == r[j];
          assert t[k] == s[k + 1];
        }
      }
      assert InsertByDepth(p, s) == [s[0]] + r;
    }
  }

  lemma {:induction false} InsertAtDepth(p: FilePath, s: seq<FilePath>, d: nat)
    requires DeepestFirst(s)
    ensures AtDepth(InsertByDepth(p, s), d) == AtDepth(s, d) + (if Depth(p) == d then [p] else [])
    decreases |s|
  {
    if s == [] {
    } else if Depth(s[0]) >= Depth(p) {
      var r := InsertByDepth(p, s[1..]);
      var head := if Depth(s[0]) == d then [s[0]] else [];
      var tail := if Depth(p) == d then [p] else [];
      assert DeepestFirst(s[1..]);
      InsertAtDepth(p, s[1..], d);
      assert ([s[0]] + r)[0] == s[0] && ([s[0]] + r)[1..] == r;
      calc {
        AtDepth(InsertByDepth(p, s), d);
        AtDepth([s[0]] + r, d);
        head + AtDepth(r, d);
        head + (AtDepth(s[1..], d) + tail);
        (head + AtDepth(s[1..], d)) + tail;
        AtDepth(s, d) + tail;
      }
    } else {
      ShallowerAtDepth(s, Depth(p));
      assert ([p] + s)[0] == p && ([p] + s)[1..] == s;
    }
  }

  lemma {:induction false} ShallowerAtDepth(s: seq<FilePath>, d: nat)
    requires DeepestFirst(s) && (s != [] ==> Depth(s[0]) < d)
    ensures AtDepth(s, d) == []
    decreases |s|
  {
    if s != [] {
      ShallowerAtDepth(s[1..], d);
    }
  }

  lemma {:induction false} AtDepthAppend(s: seq<FilePath>, p: FilePath, d: nat)
    ensures AtDepth(s + [p], d) == AtDepth(s, d) + (if Depth(p) == d then [p] else [])
    decreases |s|
  {
    if s != [] {
      assert (s + [p])[1..] == s[1..] + [p];
      AtDepthAppend(s[1..], p, d);
    }
  }

  /**
   * After the sort the deepest folders come first, the list holds the same folders,
   * and folders of equal depth keep their relative order.
   */
  lemma {:induction false} SortByDepthCorrect(s: seq<FilePath>)
    ensures DeepestFirst(SortByDepth(s))
    ensures multiset(SortByDepth(s)) == multiset(s)
    ensures forall d: nat :: AtDepth(SortByDepth(s), d) == AtDepth(s, d)
    decreases |s|
  {
    if s != [] {
      var init, last := s[..|s| - 1], s[|s| - 1];
      SortByDepthCorrect(init);
      InsertKeepsOrder(last, SortByDepth(init));
      assert s == init + [last];
      forall d: nat ensures AtDepth(SortByDepth(s), d) == AtDepth(s, d) {
        InsertAtDepth(last, SortByDepth(init), d);
        AtDepthAppend(init, last, d);
      }
    }
  }
}
