/** File names of the virtual 1541 (tools/virtual_1541/c64_1541_uart_gui.py): the name of an
    OPEN, shell-style patterns, and the directory entry that is meant. */
module DriveNames {
  import opened Bytes
  import opened D64Readers
  import opened D64Layout
  import opened D64RoundTrip

  // -------------------------------------------------------------------- strings

  function LStrip<T(==)>(s: seq<T>, cut: set<T>): seq<T> {
    if s != [] && s[0] in cut then LStrip(s[1..], cut) else s
  }

  function RStrip<T(==)>(s: seq<T>, cut: set<T>): seq<T> {
    if s != [] && s[|s| - 1] in cut then RStrip(s[..|s| - 1], cut) else s
  }

  function Strip<T(==)>(s: seq<T>, cut: set<T>): seq<T> { RStrip(LStrip(s, cut), cut) }

  function IndexOf(s: string, c: char): (k: nat)
    ensures k <= |s| && (forall j | 0 <= j < k :: s[j] != c) && (k < |s| ==> s[k] == c)
  {
    if s == "" || s[0] == c then 0 else 1 + IndexOf(s[1..], c)
  }

  function Split(s: string, c: char): (parts: seq<string>)
    ensures parts != []
    decreases |s|
  {
    var k := IndexOf(s, c);
    if k == |s| then [s] else [s[..k]] + Split(s[k + 1..], c)
  }

  function UpperChar(c: char): char { if 'a' <= c <= 'z' then (c as int - 32) as char else c }

  function UpperCase(s: string): (u: string)
    ensures |u| == |s|
  {
    seq(|s|, i requires 0 <= i < |s| => UpperChar(s[i]))
  }

  // -------------------------------------------------------------- the name of an OPEN

  /** The characters of a KERNAL name; other bytes are dropped. */
  function Characters(raw: seq<byte>): string {
    if raw == [] then ""
    else
      var b := raw[|raw| - 1];
      Characters(raw[..|raw| - 1]) + if 0x20 <= b < 0x7F then [b as char] else if b == 0xA0 then " " else ""
  }

  function C64Name(raw: seq<byte>): string {
    Strip(Characters(Strip(Strip(raw, {0, 0x20, 0xA0}), {0x22})), {' '})
  }

  function Unquoted(s: string): string { Strip(Strip(s, {' '}), {'"'}) }

  /** Without quotes around it and without the drive number in front of it. */
  function Normalized(name: string): string {
    var out := Unquoted(name);
    var k := IndexOf(out, ':');
    Unquoted(if k < |out| then out[k + 1..] else out)
  }

  /** The file type that a part of the specification stands for, or nothing. */
  function Alias(part: string): string {
    if part == "P" || part == "PRG" then "PRG"
    else if part == "S" || part == "SEQ" then "SEQ"
    else if part == "U" || part == "USR" then "USR"
    else ""
  }

  const LOADABLE: set<string> := {"PRG", "SEQ", "USR"}

  /** What an OPEN asks for: a sector buffer, or a file with a type and a mode. */
  datatype OpenSpec = Buffer | Spec(name: string, kind: string, mode: string)

  /** The last type and all the other parts after the file name. */
  function Modifiers(parts: seq<string>): (string, string) {
    if parts == [] then ("", "")
    else
      var (kind, mode) := Modifiers(parts[..|parts| - 1]);
      var part := UpperCase(Strip(parts[|parts| - 1], {' '}));
      if Alias(part) != "" then (Alias(part), mode) else (kind, mode + part)
  }

  function ParseSpec(raw: seq<byte>): OpenSpec {
    var spec := Unquoted(C64Name(raw));
    if spec != "" && spec[0] == '#' then Buffer
    else
      var parts := Split(spec, ',');
      var (kind, mode) := Modifiers(parts[1..]);
      Spec(Normalized(Strip(parts[0], {' '})), kind, mode)
  }

  function Kinds(kind: string): set<string> { if Alias(kind) != "" then {Alias(kind)} else LOADABLE }

  predicate Writing(s: OpenSpec) { s.Spec? && ('W' in s.mode || 'A' in s.mode) }

  predicate IsDirectory(s: OpenSpec) {
    s.Spec? && var name := Strip(s.name, {' '}); name != "" && name[0] == '$'
  }

  function Target(s: OpenSpec): string
    requires s.Spec?
  {
    UpperCase(Normalized(s.name))
  }

  /** Names without punctuation that an OPEN takes apart. */
  predicate Whole(s: string) {
    && s != "" && s[0] != ' ' && s[|s| - 1] != ' '
    && forall c <- s :: ' ' <= c <= '~' && c !in {',', ':', '"'}
  }

  /** Names that mean nothing but themselves. */
  predicate Plain(s: string) { Whole(s) && s[0] !in {'#', '$'} }

  function AsciiBytes(s: string): (b: seq<byte>)
    ensures |b| == |s|
  {
    seq(|s|, i requires 0 <= i < |s| => if s[i] as int < 128 then s[i] as int else 0x3F)
  }

  lemma NothingToStrip<T>(s: seq<T>, cut: set<T>)
    requires s != [] && s[0] !in cut && s[|s| - 1] !in cut
    ensures Strip(s, cut) == s
  {
  }

  lemma WholeEnds(s: string)
    requires Whole(s)
    ensures s != "" && s[0] !in {' ', '"'} && s[|s| - 1] !in {' ', '"'}
    ensures forall i | 0 <= i < |s| :: ' ' <= s[i] <= '~' && s[i] != ',' && s[i] != ':'
  {
    forall i | 0 <= i < |s| ensures s[i] in s {
    }
  }

  lemma {:induction false} CharactersOf(s: string)
    requires forall i | 0 <= i < |s| :: ' ' <= s[i] <= '~'
    ensures Characters(AsciiBytes(s)) == s
    decreases |s|
  {
    if s != "" {
      var n := |s| - 1;
      assert AsciiBytes(s)[..n] == AsciiBytes(s[..n]);
      CharactersOf(s[..n]);
    }
  }

  /** A visible text without spaces and quotes at its ends comes through. */
  lemma TextC64Name(s: string)
    requires s != "" && s[0] !in {' ', '"'} && s[|s| - 1] !in {' ', '"'}
    requires forall i | 0 <= i < |s| :: ' ' <= s[i] <= '~'
    ensures C64Name(AsciiBytes(s)) == s && Unquoted(s) == s
  {
    hide Strip, Characters;
    NothingToStrip(AsciiBytes(s), {0, 0x20, 0xA0});
    NothingToStrip(AsciiBytes(s), {0x22});
    CharactersOf(s);
    NothingToStrip(s, {' '});
    NothingToStrip(s, {'"'});
  }

  lemma WholeC64Name(s: string)
    requires Whole(s)
    ensures C64Name(AsciiBytes(s)) == s
  {
    hide C64Name, Unquoted, Whole;
    WholeEnds(s);
    TextC64Name(s);
  }

  lemma WholeNormalized(s: string)
    requires Whole(s)
    ensures Normalized(s) == s
  {
    hide Strip, Whole;
    WholeEnds(s);
    NothingToStrip(s, {' '});
    NothingToStrip(s, {'"'});
  }

  /** A whole name asks for the file of that name, of any loadable type, and `$` at its
      beginning for the directory. */
  lemma WholeSpec(s: string)
    requires Whole(s) && s[0] != '#'
    ensures ParseSpec(AsciiBytes(s)) == Spec(s, "", "") && Target(Spec(s, "", "")) == UpperCase(s)
    ensures IsDirectory(Spec(s, "", "")) <==> s[0] == '$'
  {
    hide Strip, Normalized, C64Name, UpperCase;
    WholeC64Name(s);
    WholeEnds(s);
    NothingToStrip(s, {' '});
    NothingToStrip(s, {'"'});
    WholeNormalized(s);
    assert IndexOf(s, ',') == |s|;
    assert Split(s, ',') == [s];
  }

  // ------------------------------------------------------------------- patterns

  function SetEnd(pat: string, j: nat): (k: nat)
    requires j <= |pat|
    ensures j <= k <= |pat|
    decreases |pat| - j
  {
    if j == |pat| || pat[j] == ']' then j else SetEnd(pat, j + 1)
  }

  /** Where the set that `pat` begins with ends. */
  function Closing(pat: string): (k: nat)
    requires pat != ""
    ensures 1 <= k <= |pat|
  {
    var j: nat := if |pat| > 1 && pat[1] == '!' then 2 else 1;
    SetEnd(pat, if j < |pat| && pat[j] == ']' then j + 1 else j)
  }

  /** Single characters and ranges. */
  predicate Among(items: string, c: char) {
    items != "" &&
    if |items| >= 3 && items[1] == '-' then items[0] <= c <= items[2] || Among(items[3..], c)
    else items[0] == c || Among(items[1..], c)
  }

  predicate InSet(items: string, c: char) {
    if items != "" && items[0] == '!' then !Among(items[1..], c) else Among(items, c)
  }

  /** Shell-style patterns. */
  predicate Glob(pat: string, s: string)
    decreases |pat| + |s|
  {
    if pat == "" then s == ""
    else if pat[0] == '*' then Glob(pat[1..], s) || (s != "" && Glob(pat, s[1..]))
    else if s == "" then false
    else if pat[0] == '[' && Closing(pat) < |pat| then
      InSet(pat[1..Closing(pat)], s[0]) && Glob(pat[Closing(pat) + 1..], s[1..])
    else (pat[0] == '?' || pat[0] == s[0]) && Glob(pat[1..], s[1..])
  }

  predicate Wild(target: string) { '*' in target || '?' in target }

  lemma {:induction false} StarMatches(s: string)
    ensures Glob("*", s)
    decreases |s|
  {
    assert "*"[1..] == "";
    if s != "" {
      StarMatches(s[1..]);
    }
  }

  /** `NAME*` matches exactly the names that begin with `NAME`. */
  lemma {:induction false} PrefixPattern(p: string, s: string)
    requires forall c <- p :: c !in {'*', '?', '['}
    ensures Glob(p + "*", s) <==> p <= s
    decreases |p|
  {
    if p == "" {
      assert p + "*" == "*";
      StarMatches(s);
    } else {
      assert (p + "*")[0] == p[0] && p[0] in p && (p + "*")[1..] == p[1..] + "*";
      if s != "" {
        forall c | c in p[1..] ensures c in p {
        }
        PrefixPattern(p[1..], s[1..]);
        assert p <= s <==> p[0] == s[0] && p[1..] <= s[1..];
      }
    }
  }

  // --------------------------------------------------------------------- lookup

  /** What an entry has to satisfy. */
  datatype Test = Any | Named(name: string) | Like(pat: string)

  predicate Meets(e: Entry, kinds: set<string>, t: Test) {
    && e.kind in kinds
    && match t
       case Any => true
       case Named(name) => UpperCase(e.name) == name
       case Like(pat) => Glob(pat, UpperCase(e.name))
  }

  /** The first entry that meets the test, or the number of entries if there is none. */
  function First(entries: seq<Entry>, kinds: set<string>, t: Test): (i: nat)
    ensures i <= |entries| && (i < |entries| ==> Meets(entries[i], kinds, t))
    ensures forall j | 0 <= j < i :: !Meets(entries[j], kinds, t)
  {
    if entries == [] then 0
    else
      var last := |entries| - 1;
      var i := First(entries[..last], kinds, t);
      if i < last || Meets(entries[last], kinds, t) then i else last + 1
  }

  lemma FirstIs(entries: seq<Entry>, kinds: set<string>, t: Test, i: nat)
    requires i <= |entries| && (i < |entries| ==> Meets(entries[i], kinds, t))
    requires forall j | 0 <= j < i :: !Meets(entries[j], kinds, t)
    ensures First(entries, kinds, t) == i
  {
    hide First, Meets;
  }

  /** The entry that a name means: the first loadable one for `*`, an exact match before a
      pattern, and the first of several. */
  function Find(entries: seq<Entry>, kinds: set<string>, target: string): (i: nat)
    ensures i <= |entries|
  {
    if target == "*" || target == "" then First(entries, kinds, Any)
    else
      var exact := First(entries, kinds, Named(target));
      if exact < |entries| || !Wild(target) then exact else First(entries, kinds, Like(target))
  }

  /** What an entry has to satisfy to be meant at all. */
  predicate Candidate(e: Entry, kinds: set<string>, target: string) {
    || ((target == "*" || target == "") && Meets(e, kinds, Any))
    || Meets(e, kinds, Named(target))
    || (Wild(target) && Meets(e, kinds, Like(target)))
  }

  /** An entry is found exactly if one could be meant. It is then the first such entry that is
      as good as any: no entry has the exact name unless this one has it. */
  lemma FindMeans(entries: seq<Entry>, kinds: set<string>, target: string)
    ensures var i := Find(entries, kinds, target);
            && (i < |entries| <==> exists e <- entries :: Candidate(e, kinds, target))
            && (i < |entries| ==> Candidate(entries[i], kinds, target))
            && (i < |entries| && target != "*" && target != "" && !Meets(entries[i], kinds, Named(target)) ==>
                  forall e <- entries :: !Meets(e, kinds, Named(target)))
            && forall j | 0 <= j < i && i < |entries| && Candidate(entries[j], kinds, target) ::
                 Meets(entries[i], kinds, Named(target)) && !Meets(entries[j], kinds, Named(target))
  {
    hide First, Glob, UpperCase;
    StarIsWild();
    var i := Find(entries, kinds, target);
    if i < |entries| {
      assert entries[i] in entries;
    } else {
      forall e | e in entries ensures !Candidate(e, kinds, target) {
        var k :| 0 <= k < |entries| && entries[k] == e;
        assert !Meets(entries[k], kinds, Named(target));
      }
    }
  }

  lemma StarIsWild()
    ensures Wild("*") && !Wild("")
  {
  }

  method FindLoadEntry(entries: seq<Entry>, kinds: set<string>, target: string) returns (i: nat)
    ensures i == Find(entries, kinds, target)
  {
    hide First, Glob;
    if target == "*" || target == "" {
      i := Search(entries, kinds, Any);
      return;
    }
    i := Search(entries, kinds, Named(target));
    if i == |entries| && Wild(target) {
      i := Search(entries, kinds, Like(target));
    }
  }

  method Search(entries: seq<Entry>, kinds: set<string>, t: Test) returns (i: nat)
    ensures i == First(entries, kinds, t)
  {
    hide First, Meets;
    i := 0;
    while i < |entries| && !Meets(entries[i], kinds, t)
      invariant i <= |entries| && forall j | 0 <= j < i :: !Meets(entries[j], kinds, t)
    {
      i := i + 1;
    }
    FirstIs(entries, kinds, t, i);
  }

  // -------------------------------------------------------------- built disks

  lemma ListedUpper(name: seq<ascii>)
    ensures UpperCase(ListedName(name)) == ListedName(name)
  {
  }

  /** On a built disk a file's own listed name finds the file if and only if no earlier file
      is listed with the same name. The name `*` finds the first file. */
  lemma OwnName(prgs: seq<Prg>, i: nat)
    requires TotalBlocks(prgs) <= DATA_SECTORS && i < |prgs| && prgs[i].name != []
    ensures var name := ListedName(prgs[i].name);
            Find(Catalog(prgs), LOADABLE, UpperCase(name)) == i
            <==> if name == "*" then i == 0 else forall j | 0 <= j < i :: ListedName(prgs[j].name) != name
  {
    hide TotalBlocks, UpperCase, First, ListedName, Catalog, Meets, Glob;
    var name, entries := ListedName(prgs[i].name), Catalog(prgs);
    ListedUpper(prgs[i].name);
    NotEmpty(prgs[i].name);
    if name == "*" {
      CatalogMeets(prgs, 0, name);
    } else {
      CatalogMeets(prgs, i, name);
      var k := First(entries, LOADABLE, Named(name));
      if k <= i {
        CatalogMeets(prgs, k, name);
      }
      forall j | 0 <= j < k && j < i ensures ListedName(prgs[j].name) != name {
        CatalogMeets(prgs, j, name);
      }
    }
  }

  lemma CatalogMeets(prgs: seq<Prg>, j: nat, name: string)
    requires TotalBlocks(prgs) <= DATA_SECTORS && j < |prgs|
    ensures Meets(Catalog(prgs)[j], LOADABLE, Any)
    ensures Meets(Catalog(prgs)[j], LOADABLE, Named(name)) <==> ListedName(prgs[j].name) == name
  {
    hide TotalBlocks, UpperCase, ListedName, DataPos, Start, Blocks;
    ListedUpper(prgs[j].name);
  }

  lemma NotEmpty(name: seq<ascii>)
    requires name != []
    ensures ListedName(name) != ""
  {
  }
}
