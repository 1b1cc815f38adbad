/**
 * `IniFile` (src/inifile.cpp): the ordered store of sections, its printer and its
 * parser, including the way `fgets` cuts the text into chunks of at most 2047
 * characters.
 */
module IniFileModel {
  import opened Common

  // ---- Character strings --------------------------------------------------

  /** `s` up to the first `c`, or all of it. */
  function Before(s: string, c: char): (r: string)
    ensures r <= s && c !in r
    ensures r == s <==> c !in s
    ensures c in s ==> |r| < |s| && s[|r|] == c
  {
    if s == "" || s[0] == c then "" else [s[0]] + Before(s[1..], c)
  }

  /** `s` after the first `c`, or nothing. */
  function After(s: string, c: char): string {
    if c in s then s[|Before(s, c)| + 1..] else ""
  }

  lemma BeforeAndAfter(s: string, c: char)
    ensures s == Before(s, c) + (if c in s then [c] + After(s, c) else "")
  {
  }

  /** The characters a NUL-terminated copy of `s` shows. */
  function CStr(s: string): string { Before(s, '\0') }

  function TrimLeft(s: string, c: char): (r: string)
    ensures r == "" || r[0] != c
    ensures r == s <==> (s == "" || s[0] != c)
    ensures |r| <= |s|
  {
    if s != "" && s[0] == c then TrimLeft(s[1..], c) else s
  }

  function TrimRight(s: string, c: char): (r: string)
    ensures r == "" || r[|r| - 1] != c
    ensures r == s <==> (s == "" || s[|s| - 1] != c)
    ensures r <= s
  {
    if s != "" && s[|s| - 1] == c then TrimRight(s[..|s| - 1], c) else s
  }

  function Trim(s: string): (r: string)
    ensures Trimmed(r)
    ensures r == s <==> Trimmed(s)
    ensures |r| <= |s|
  {
    TrimRight(TrimLeft(s, ' '), ' ')
  }

  /** No space at either end. */
  predicate Trimmed(s: string) { s != "" ==> s[0] != ' ' && s[|s| - 1] != ' ' }

  lemma {:induction false} TrimLeftCuts(s: string, c: char)
    ensures TrimLeft(s, c) == s[|s| - |TrimLeft(s, c)|..]
    ensures forall k :: 0 <= k < |s| - |TrimLeft(s, c)| ==> s[k] == c
  {
    if s != "" && s[0] == c {
      TrimLeftCuts(s[1..], c);
      forall k | 0 <= k < |s| - |TrimLeft(s, c)| ensures s[k] == c {
        if k > 0 { assert s[k] == s[1..][k - 1]; }
      }
    }
  }

  lemma {:induction false} TrimRightCuts(s: string, c: char)
    ensures forall k :: |TrimRight(s, c)| <= k < |s| ==> s[k] == c
  {
    if s != "" && s[|s| - 1] == c { TrimRightCuts(s[..|s| - 1], c); }
  }

  /** Trimming cuts spaces off both ends, and only spaces. */
  lemma {:induction false} TrimCuts(s: string) returns (i: nat, j: nat)
    ensures i <= j <= |s| && Trim(s) == s[i..j]
    ensures (forall k :: 0 <= k < i ==> s[k] == ' ') && (forall k :: j <= k < |s| ==> s[k] == ' ')
  {
    var t := TrimLeft(s, ' ');
    i := |s| - |t|;
    j := i + |Trim(s)|;
    TrimLeftCuts(s, ' ');
    TrimRightCuts(t, ' ');
    forall k | j <= k < |s| ensures s[k] == ' ' { assert s[k] == t[k - i]; }
  }

  function Spaces(k: nat): string { seq(k, i => ' ') }

  /** What stands in front of trailing `c`s survives the trim. */
  lemma {:induction false} TrimRightConcat(a: string, b: string, c: char)
    requires a != "" && a[|a| - 1] != c
    ensures TrimRight(a + b, c) == a + TrimRight(b, c)
  {
    if b != "" && b[|b| - 1] == c {
      assert (a + b)[..|a + b| - 1] == a + b[..|b| - 1];
      TrimRightConcat(a, b[..|b| - 1], c);
    }
  }

  lemma TrimRightSpaces(k: nat)
    ensures TrimRight(Spaces(k), ' ') == ""
  {
  }

  // ---- The store ----------------------------------------------------------

  datatype Entry = Entry(name: string, value: string)
  datatype Section = Section(name: string, entries: seq<Entry>)
  type Store = seq<Section>

  /** Index of the first section called `name`, or the number of sections. */
  function FindSection(st: Store, name: string): (i: nat)
    ensures i <= |st|
    ensures i < |st| ==> st[i].name == name
    ensures forall j :: 0 <= j < i ==> st[j].name != name
  {
    if st == [] || st[0].name == name then 0 else 1 + FindSection(st[1..], name)
  }

  function FindEntry(es: seq<Entry>, name: string): (i: nat)
    ensures i <= |es|
    ensures i < |es| ==> es[i].name == name
    ensures forall j :: 0 <= j < i ==> es[j].name != name
  {
    if es == [] || es[0].name == name then 0 else 1 + FindEntry(es[1..], name)
  }

  function Lookup(st: Store, section: string, name: string): Option<string> {
    var i := FindSection(st, section);
    if i == |st| then None else
    var j := FindEntry(st[i].entries, name);
    if j == |st[i].entries| then None else Some(st[i].entries[j].value)
  }

  function SetEntry(es: seq<Entry>, name: string, value: string): seq<Entry> {
    var j := FindEntry(es, name);
    if j == |es| then es + [Entry(name, value)] else es[j := Entry(name, value)]
  }

  /** `set_value` with creation. */
  function Set(st: Store, section: string, name: string, value: string): Store {
    var i := FindSection(st, section);
    if i == |st| then st + [Section(section, [Entry(name, value)])]
    else st[i := Section(section, SetEntry(st[i].entries, name, value))]
  }

  function RemoveValue(st: Store, section: string, name: string): Store
    requires Lookup(st, section, name).Some?
  {
    var i := FindSection(st, section);
    var j := FindEntry(st[i].entries, name);
    st[i := Section(section, st[i].entries[..j] + st[i].entries[j + 1..])]
  }

  function RemoveSection(st: Store, section: string): Store
    requires FindSection(st, section) < |st|
  {
    var i := FindSection(st, section);
    st[..i] + st[i + 1..]
  }

  ghost predicate DistinctEntries(es: seq<Entry>) { forall i, j :: 0 <= i < j < |es| ==> es[i].name != es[j].name }

  /** No section name twice, and in a section no value name twice. */
  ghost predicate WellFormed(st: Store) {
    && (forall i, j :: 0 <= i < j < |st| ==> st[i].name != st[j].name)
    && forall i :: 0 <= i < |st| ==> DistinctEntries(st[i].entries)
  }

  /** A first occurrence is what the searches return. */
  lemma FindSectionIs(st: Store, name: string, i: nat)
    requires i <= |st| && (i < |st| ==> st[i].name == name) && forall j :: 0 <= j < i ==> st[j].name != name
    ensures FindSection(st, name) == i
  {
  }

  lemma FindEntryIs(es: seq<Entry>, name: string, i: nat)
    requires i <= |es| && (i < |es| ==> es[i].name == name) && forall j :: 0 <= j < i ==> es[j].name != name
    ensures FindEntry(es, name) == i
  {
  }

  lemma SetKeepsWellFormed(st: Store, section: string, name: string, value: string)
    requires WellFormed(st)
    ensures WellFormed(Set(st, section, name, value))
  {
    var st' := Set(st, section, name, value);
    forall i | 0 <= i < |st'| ensures DistinctEntries(st'[i].entries) {}
  }

  /** Setting changes exactly the one lookup it names. */
  lemma SetThenLookup(st: Store, section: string, name: string, value: string, s: string, n: string)
    ensures Lookup(Set(st, section, name, value), s, n) ==
              if s == section && n == name then Some(value) else Lookup(st, s, n)
  {
    var st' := Set(st, section, name, value);
    var i, k := FindSection(st, section), FindSection(st, s);
    if k < |st| {
      FindSectionIs(st', s, k);
      if k == i { SetEntryThenFind(st[i].entries, name, value, n); }
    } else if s == section {
      FindSectionIs(st', s, |st|);
      FindEntryIs([Entry(name, value)], n, if n == name then 0 else 1);
    } else {
      FindSectionIs(st', s, |st'|);
    }
  }

  lemma SetEntryThenFind(es: seq<Entry>, name: string, value: string, n: string)
    ensures var es' := SetEntry(es, name, value);
            FindEntry(es', n) == (if n != name && FindEntry(es, n) == |es| then |es'| else FindEntry(es, n))
    ensures var es' := SetEntry(es, name, value);
            FindEntry(es, name) < |es'| && es'[FindEntry(es, name)].value == value
  {
    var es', i := SetEntry(es, name, value), FindEntry(es, n);
    FindEntryIs(es', n, if n != name && i == |es| then |es'| else i);
  }

  /** Setting leaves every name where it is, and puts a new one behind the others. */
  lemma SetKeepsPlaces(st: Store, section: string, name: string, value: string)
    ensures var st', i := Set(st, section, name, value), FindSection(st, section);
            && |st'| == (if i < |st| then |st| else |st| + 1)
            && st'[i].name == section && (forall k :: 0 <= k < |st| && k != i ==> st'[k] == st[k])
            && var es := if i < |st| then st[i].entries else [];
               var es', j := st'[i].entries, FindEntry(es, name);
               && |es'| == (if j < |es| then |es| else |es| + 1)
               && es'[j] == Entry(name, value) && (forall k :: 0 <= k < |es| && k != j ==> es'[k] == es[k])
  {
  }

  // ---- Printing -----------------------------------------------------------

  /** `%-10s`. */
  function Pad(name: string): string { name + Spaces(if |name| < 10 then 10 - |name| else 0) }

  function PrintEntry(e: Entry): string { Pad(CStr(e.name)) + " = " + CStr(e.value) + "\n" }
  function PrintHeader(name: string): string { "[" + CStr(name) + "]\n" }

  function EntryLines(es: seq<Entry>): seq<string> { seq(|es|, i requires 0 <= i < |es| => PrintEntry(es[i])) }

  /** The lines `write_file` prints for a section; one without values is skipped. */
  function SectionLines(s: Section): seq<string> {
    if s.entries == [] then [] else [PrintHeader(s.name)] + EntryLines(s.entries) + ["\n"]
  }

  function PrintedLines(st: Store): seq<string> {
    if st == [] then [] else PrintedLines(st[..|st| - 1]) + SectionLines(st[|st| - 1])
  }

  function Flatten(ls: seq<string>): string { if ls == [] then "" else ls[0] + Flatten(ls[1..]) }

  function Print(st: Store): string { Flatten(PrintedLines(st)) }

  /** A short name is padded with spaces to ten characters. */
  lemma PadIs(name: string)
    ensures |Pad(name)| == (if |name| < 10 then 10 else |name|) && name <= Pad(name)
    ensures forall i :: |name| <= i < |Pad(name)| ==> Pad(name)[i] == ' '
  {
  }

  /** A printed entry. */
  lemma {:induction false} EntryExample()
    ensures PrintEntry(Entry("n", "v")) == "n          = v\n"
  {
    assert CStr("n") == "n" && CStr("v") == "v";
    assert Pad("n") == "n         ";
  }

  /** A printed section: its header, its entries in order and a blank line; nothing for
      a section without values. */
  lemma {:induction false} SectionIsPrinted(st: Store, s: Section)
    ensures Print(st + [s]) ==
              if s.entries == [] then Print(st)
              else Print(st) + ("[" + CStr(s.name) + "]\n" + Flatten(EntryLines(s.entries)) + "\n")
  {
    assert (st + [s])[..|st|] == st;
    FlattenConcat(PrintedLines(st), SectionLines(s));
    if s.entries == [] {
      assert PrintedLines(st) + [] == PrintedLines(st);
    } else {
      var head, mid := [PrintHeader(s.name)], EntryLines(s.entries);
      FlattenAppend(head + mid, "\n");
      FlattenConcat(head, mid);
      assert Flatten(head) == PrintHeader(s.name) + Flatten([]) == PrintHeader(s.name);
    }
  }

  // ---- Parsing ------------------------------------------------------------

  const BUFFER := 2048

  /** How many characters `fgets` takes when `room` still fit. */
  function ChunkLen(text: string, room: nat): (n: nat)
    ensures n <= |text| && n <= room
    ensures text != "" && room > 0 ==> n > 0
  {
    if text == "" || room == 0 then 0
    else if text[0] == '\n' then 1
    else 1 + ChunkLen(text[1..], room - 1)
  }

  function Chunks(text: string): seq<string>
    decreases |text|
  {
    if text == "" then [] else
    var n := ChunkLen(text, BUFFER - 1);
    [text[..n]] + Chunks(text[n..])
  }

  datatype Line = Skip | Header(section: string) | Assign(name: string, value: string)

  function Clean(chunk: string): string { TrimRight(TrimRight(CStr(chunk), '\n'), '\r') }

  function ParseLine(line: string): Line {
    if line == "" || line[0] == '#' then Skip
    else if line[0] == '[' && line[|line| - 1] == ']' then Header(Trim(line[1..|line| - 1]))
    else ParseAssignment(Before(line, '='), After(line, '='))
  }

  /** The two sides of the first `=`. */
  function ParseAssignment(left: string, right: string): Line {
    if Trim(left) == "" then Skip else Assign(Trim(left), Trim(Before(right, '#')))
  }

  /** The store being filled and the current section name. */
  datatype Reader = Reader(store: Store, section: string)

  function Apply(r: Reader, line: Line): Reader {
    match line
    case Skip => r
    case Header(s) => r.(section := s)
    case Assign(n, v) => r.(store := Set(r.store, r.section, n, v))
  }

  /** The lines that chunks are read as. */
  function ParseAll(chunks: seq<string>): (r: seq<Line>)
    ensures |r| == |chunks| && forall i :: 0 <= i < |r| ==> r[i] == ParseLine(Clean(chunks[i]))
  {
    seq(|chunks|, i requires 0 <= i < |chunks| => ParseLine(Clean(chunks[i])))
  }

  function Lines(text: string): seq<Line> { ParseAll(Chunks(text)) }

  function Read(r: Reader, lines: seq<Line>): Reader {
    if lines == [] then r else Apply(Read(r, lines[..|lines| - 1]), lines[|lines| - 1])
  }

  /** `read_file` into an existing store. */
  function Parse(st: Store, text: string): Store { Read(Reader(st, ""), Lines(text)).store }

  // ---- The object ---------------------------------------------------------

  datatype Key = Key(values: seq<string>, names: seq<string>)

  function Zip(k: Key): (es: seq<Entry>)
    requires |k.names| == |k.values|
    ensures |es| == |k.names| && forall i :: 0 <= i < |es| ==> es[i] == Entry(k.names[i], k.values[i])
  {
    seq(|k.names|, i requires 0 <= i < |k.names| => Entry(k.names[i], k.values[i]))
  }

  predicate AlignedKeys(names: seq<string>, keys: seq<Key>) {
    |names| == |keys| && forall i :: 0 <= i < |keys| ==> |keys[i].names| == |keys[i].values|
  }

  /** The two parallel vectors read as sections. */
  function Sections(names: seq<string>, keys: seq<Key>): (st: Store)
    requires AlignedKeys(names, keys)
    ensures |st| == |names| && forall i :: 0 <= i < |st| ==> st[i] == Section(names[i], Zip(keys[i]))
  {
    seq(|names|, i requires 0 <= i < |names| => Section(names[i], Zip(keys[i])))
  }

  lemma SectionsUpdate(names: seq<string>, keys: seq<Key>, k: nat, key: Key)
    requires AlignedKeys(names, keys) && k < |keys| && |key.names| == |key.values|
    ensures Sections(names, keys[k := key]) == Sections(names, keys)[k := Section(names[k], Zip(key))]
  {
  }

  lemma SectionsAppend(names: seq<string>, keys: seq<Key>, name: string, key: Key)
    requires AlignedKeys(names, keys) && |key.names| == |key.values|
    ensures Sections(names + [name], keys + [key]) == Sections(names, keys) + [Section(name, Zip(key))]
  {
  }

  lemma SectionsRemove(names: seq<string>, keys: seq<Key>, k: nat)
    requires AlignedKeys(names, keys) && k < |keys|
    ensures Sections(names[..k] + names[k + 1..], keys[..k] + keys[k + 1..])
            == Sections(names, keys)[..k] + Sections(names, keys)[k + 1..]
  {
  }

  lemma ZipAppend(key: Key, name: string, value: string)
    requires |key.names| == |key.values|
    ensures Zip(Key(key.values + [value], key.names + [name])) == Zip(key) + [Entry(name, value)]
  {
  }

  lemma ZipUpdate(key: Key, v: nat, value: string)
    requires v < |key.names| == |key.values|
    ensures Zip(key.(values := key.values[v := value])) == Zip(key)[v := Entry(key.names[v], value)]
  {
  }

  lemma ZipRemove(key: Key, v: nat)
    requires v < |key.names| == |key.values|
    ensures Zip(Key(key.values[..v] + key.values[v + 1..], key.names[..v] + key.names[v + 1..]))
            == Zip(key)[..v] + Zip(key)[v + 1..]
  {
  }

  class IniFile {
    var names: seq<string>
    var keys: seq<Key>

    ghost predicate Aligned()
      reads this
    {
      AlignedKeys(names, keys)
    }

    ghost function Abs(): Store
      requires Aligned()
      reads this
    {
      Sections(names, keys)
    }

    constructor ()
      ensures Aligned() && Abs() == []
    {
      names, keys := [], [];
    }

    /** -1 when there is no such section. */
    method FindKey(keyname: string) returns (k: int)
      requires Aligned()
      ensures k == if FindSection(Abs(), keyname) < |names| then FindSection(Abs(), keyname) else -1
    {
      for i := 0 to |names|
        invariant forall j :: 0 <= j < i ==> Abs()[j].name != keyname
      {
        if names[i] == keyname {
          assert Abs()[i].name == keyname;
          return i;
        }
      }
      return -1;
    }

    method FindValue(keynum: int, valuename: string) returns (v: int)
      requires Aligned() && keynum < |keys|
      ensures keynum < 0 ==> v == -1
      ensures keynum >= 0 ==>
                var es := Zip(keys[keynum]);
                v == if FindEntry(es, valuename) < |es| then FindEntry(es, valuename) else -1
    {
      if keynum < 0 { return -1; }
      var ns := keys[keynum].names;
      for i := 0 to |ns|
        invariant forall j :: 0 <= j < i ==> Zip(keys[keynum])[j].name != valuename
      {
        if ns[i] == valuename {
          assert Zip(keys[keynum])[i].name == valuename;
          return i;
        }
      }
      return -1;
    }

    method TryGetString(section: string, key: string) returns (r: Option<string>)
      requires Aligned()
      ensures r == Lookup(Abs(), section, key)
    {
      var k := FindKey(section);
      if k < 0 { return None; }
      var v := FindValue(k, key);
      if v < 0 { return None; }
      return Some(keys[k].values[v]);
    }

    /** The part of `set_value` after the section is found. */
    method SetInKey(k: nat, valuename: string, value: string, create: bool) returns (ok: bool)
      requires Aligned() && k < |keys|
      modifies this`keys
      ensures Aligned()
      ensures var es := Zip(old(keys)[k]);
              && (ok <==> create || FindEntry(es, valuename) < |es|)
              && Abs() == if ok then old(Abs())[k := Section(names[k], SetEntry(es, valuename, value))] else old(Abs())
    {
      ghost var key := keys[k];
      var v := FindValue(k, valuename);
      if v == -1 {
        if !create { return false; }
        ZipAppend(key, valuename, "");
        SectionsUpdate(names, keys, k, Key(key.values + [""], key.names + [valuename]));
        keys := keys[k := Key(keys[k].values + [""], keys[k].names + [valuename])];
        v := |keys[k].names| - 1;
      }
      ZipUpdate(keys[k], v, value);
      SectionsUpdate(names, keys, k, keys[k].(values := keys[k].values[v := value]));
      keys := keys[k := keys[k].(values := keys[k].values[v := value])];
      assert Zip(keys[k]) == SetEntry(Zip(key), valuename, value);
      return true;
    }

    /** Fails, changing nothing, only when asked not to create a missing value. */
    method SetValue(keyname: string, valuename: string, value: string, create: bool) returns (ok: bool)
      requires Aligned()
      modifies this
      ensures Aligned()
      ensures ok <==> create || Lookup(old(Abs()), keyname, valuename).Some?
      ensures Abs() == if ok then Set(old(Abs()), keyname, valuename, value) else old(Abs())
    {
      var k := FindKey(keyname);
      if k == -1 {
        if !create { return false; }
        SectionsAppend(names, keys, keyname, Key([], []));
        ghost var st := Abs();
        names := names + [keyname];
        keys := keys + [Key([], [])];
        k := |names| - 1;
        assert Zip(keys[k]) == [] && SetEntry([], valuename, value) == [Entry(valuename, value)];
        ghost var added := Section(keyname, [Entry(valuename, value)]);
        assert Abs()[k := added] == st + [added];
      }
      ok := SetInKey(k, valuename, value, create);
    }

    method DeleteValue(keyname: string, valuename: string) returns (ok: bool)
      requires Aligned()
      modifies this
      ensures Aligned() && (ok <==> Lookup(old(Abs()), keyname, valuename).Some?)
      ensures !ok ==> Abs() == old(Abs())
      ensures ok ==> Abs() == RemoveValue(old(Abs()), keyname, valuename)
    {
      var k := FindKey(keyname);
      var v := FindValue(k, valuename);
      if k == -1 || v == -1 { return false; }
      var key := Key(keys[k].values[..v] + keys[k].values[v + 1..], keys[k].names[..v] + keys[k].names[v + 1..]);
      ZipRemove(keys[k], v);
      SectionsUpdate(names, keys, k, key);
      keys := keys[k := key];
      return true;
    }

    method DeleteKey(keyname: string) returns (ok: bool)
      requires Aligned()
      modifies this
      ensures Aligned() && (ok <==> FindSection(old(Abs()), keyname) < |old(Abs())|)
      ensures Abs() == if ok then RemoveSection(old(Abs()), keyname) else old(Abs())
    {
      var k := FindKey(keyname);
      if k == -1 { return false; }
      SectionsRemove(names, keys, k);
      keys := keys[..k] + keys[k + 1..];
      names := names[..k] + names[k + 1..];
      return true;
    }

    /** One line of the loop of `read_file`. */
    method ReadLine(keyname: string, line: string) returns (next: string)
      requires Aligned()
      modifies this
      ensures Aligned()
      ensures Reader(Abs(), next) == Apply(Reader(old(Abs()), keyname), ParseLine(line))
    {
      next := keyname;
      if line == "" || line[0] == '#' { return; }
      if line[0] == '[' && line[|line| - 1] == ']' {
        next := Trim(line[1..|line| - 1]);
      } else {
        var valuename, value := Trim(Before(line, '=')), After(line, '=');
        value := Trim(Before(value, '#'));
        if valuename != "" {
          var _ := SetValue(keyname, valuename, value, true);
        }
      }
    }

    /** `None` is a file that cannot be opened. */
    method ReadFile(text: Option<string>) returns (ok: bool)
      requires Aligned()
      modifies this
      ensures Aligned() && ok == text.Some?
      ensures Abs() == if ok then Parse(old(Abs()), text.value) else old(Abs())
    {
      if text.None? { return false; }
      var keyname := "";
      var rest := text.value;
      ghost var start, lines := Reader(Abs(), ""), [];
      while rest != ""
        invariant Aligned() && lines + Lines(rest) == Lines(text.value)
        invariant Read(start, lines) == Reader(Abs(), keyname)
        decreases |rest|
      {
        var n := ChunkLen(rest, BUFFER - 1);
        var chunk := rest[..n];
        keyname := ReadLine(keyname, Clean(chunk));
        NextLine(rest, lines);
        ghost var line := ParseLine(Clean(chunk));
        SplitConcat(lines, [line]);
        lines := lines + [line];
        rest := rest[n..];
      }
      assert lines + [] == lines;
      return true;
    }

    /** The lines of one section with values. */
    method WriteSection(k: nat, text: string) returns (more: string)
      requires Aligned() && k < |names| && keys[k].names != []
      ensures more == text + Flatten(SectionLines(Abs()[k]))
    {
      ghost var es := Abs()[k].entries;
      ghost var lines := [PrintHeader(names[k])];
      more := text + PrintHeader(names[k]);
      assert text + Flatten(lines) == more;
      for v := 0 to |keys[k].names|
        invariant lines == ([PrintHeader(names[k])] + EntryLines(es))[..v + 1]
        invariant more == text + Flatten(lines)
      {
        var line := PrintEntry(Entry(keys[k].names[v], keys[k].values[v]));
        FlattenAppend(lines, line);
        ConcatAssoc(text, Flatten(lines), line);
        TakeSnoc([PrintHeader(names[k])] + EntryLines(es), v + 1);
        lines := lines + [line];
        more := more + line;
      }
      FlattenAppend(lines, "\n");
      ConcatAssoc(text, Flatten(lines), "\n");
      more := more + "\n";
      assert lines + ["\n"] == SectionLines(Abs()[k]);
    }

    method WriteFile() returns (text: string)
      requires Aligned()
      ensures text == Print(Abs())
    {
      text := "";
      ghost var st := Abs();
      for k := 0 to |names|
        invariant text == Print(st[..k])
      {
        PrintPrefix(st, k);
        if keys[k].names == [] {
          assert st[k].entries == [];
          continue;
        }
        text := WriteSection(k, text);
      }
      assert st[..|names|] == st;
    }
  }

  lemma RemoveKeepsWellFormed(st: Store, section: string, name: string)
    requires WellFormed(st) && Lookup(st, section, name).Some?
    ensures WellFormed(RemoveValue(st, section, name)) && WellFormed(RemoveSection(st, section))
  {
    var i := FindSection(st, section);
    var es := st[i].entries;
    assert DistinctEntries(es);
    RemoveAt(es, FindEntry(es, name));
    assert DistinctEntries(es[..FindEntry(es, name)] + es[FindEntry(es, name) + 1..]);
    RemoveAt(st, i);
  }

  lemma {:induction false} ParseAllNext(c: string, cs: seq<string>)
    ensures ParseAll([c] + cs) == [ParseLine(Clean(c))] + ParseAll(cs)
  {
  }

  lemma {:induction false} NextLine(text: string, before: seq<Line>)
    requires text != ""
    ensures var n := ChunkLen(text, BUFFER - 1);
            before + Lines(text) == before + [ParseLine(Clean(text[..n]))] + Lines(text[n..])
  {
    var n := ChunkLen(text, BUFFER - 1);
    ParseAllNext(text[..n], Chunks(text[n..]));
    ConcatAssoc(before, [ParseLine(Clean(text[..n]))], Lines(text[n..]));
  }

  /** Parsing any text into a well-formed store keeps it well-formed. */
  lemma {:induction false} ReadKeepsWellFormed(r: Reader, lines: seq<Line>)
    requires WellFormed(r.store)
    ensures WellFormed(Read(r, lines).store)
  {
    if lines != [] {
      var k := |lines| - 1;
      ReadKeepsWellFormed(r, lines[..k]);
      var m, line := Read(r, lines[..k]), lines[k];
      if line.Assign? { SetKeepsWellFormed(m.store, m.section, line.name, line.value); }
    }
  }

  /** Deleting a value ends exactly the one lookup it names. */
  lemma RemoveValueThenLookup(st: Store, section: string, name: string, s: string, n: string)
    requires WellFormed(st) && Lookup(st, section, name).Some?
    ensures Lookup(RemoveValue(st, section, name), s, n) == if s == section && n == name then None else Lookup(st, s, n)
  {
    var st' := RemoveValue(st, section, name);
    var i, k := FindSection(st, section), FindSection(st, s);
    FindSectionIs(st', s, k);
    if k == i {
      var es, es' := st[i].entries, st'[i].entries;
      assert DistinctEntries(es);
      RemoveAt(es, FindEntry(es, name));
      var j, l := FindEntry(es, name), FindEntry(es, n);
      FindEntryIs(es', n, if n == name || l == |es| then |es'| else if l < j then l else l - 1);
    }
  }

  /** Lookups in a store that lacks section `i` of another. */
  lemma LookupWithout(st: Store, st': Store, i: nat, s: string, n: string)
    requires WellFormed(st) && i < |st| && |st'| == |st| - 1
    requires (forall j :: 0 <= j < i ==> st'[j] == st[j]) && forall j :: i <= j < |st'| ==> st'[j] == st[j + 1]
    ensures Lookup(st', s, n) == if s == st[i].name then None else Lookup(st, s, n)
  {
    var k := FindSection(st, s);
    if s == st[i].name {
      forall j | 0 <= j < |st'| ensures st'[j].name != s {
        if j < i { assert st[j].name != st[i].name; } else { assert st[i].name != st[j + 1].name; }
      }
      FindSectionIs(st', s, |st'|);
    } else {
      var k' := if k < i then k else k - 1;
      forall j | 0 <= j < k' ensures st'[j].name != s {
        if j < i { assert st[j].name != s; } else { assert st[j + 1].name != s; }
      }
      FindSectionIs(st', s, k');
    }
  }

  /** Deleting a section ends exactly the lookups into it. */
  lemma RemoveSectionThenLookup(st: Store, section: string, s: string, n: string)
    requires WellFormed(st) && FindSection(st, section) < |st|
    ensures Lookup(RemoveSection(st, section), s, n) == if s == section then None else Lookup(st, s, n)
  {
    var i := FindSection(st, section);
    RemoveAt(st, i);
    LookupWithout(st, RemoveSection(st, section), i, s, n);
  }

  lemma {:induction false} FlattenConcat(ls: seq<string>, ms: seq<string>)
    ensures Flatten(ls + ms) == Flatten(ls) + Flatten(ms)
  {
    if ls == [] {
      assert ls + ms == ms;
    } else {
      assert (ls + ms)[1..] == ls[1..] + ms;
      FlattenConcat(ls[1..], ms);
    }
  }

  lemma PrintPrefix(st: Store, k: nat)
    requires k < |st|
    ensures Print(st[..k + 1]) == Print(st[..k]) + Flatten(SectionLines(st[k]))
    ensures st[k].entries == [] ==> Print(st[..k + 1]) == Print(st[..k])
  {
    assert st[..k + 1][..k] == st[..k];
    FlattenConcat(PrintedLines(st[..k]), SectionLines(st[k]));
  }

  lemma {:induction false} FlattenAppend(ls: seq<string>, l: string)
    ensures Flatten(ls + [l]) == Flatten(ls) + l
  {
    if ls == [] {
      assert Flatten([l]) == l + Flatten([]);
    } else {
      assert (ls + [l])[1..] == ls[1..] + [l];
      FlattenAppend(ls[1..], l);
    }
  }

  // ---- One printed line ---------------------------------------------------

  predicate OneLine(s: string) { '\n' !in s && '\0' !in s }

  /** An entry whose whole printed line parses to itself; `EntryReadsBack` shows
      that no other one-line entry's does. */
  predicate PrintableEntry(e: Entry) {
    && e.name != "" && Trimmed(e.name) && '=' !in e.name && e.name[0] != '#'
    && Trimmed(e.value) && '#' !in e.value
    && (e.value != "" ==> e.value[|e.value| - 1] != '\r')
    && !(e.name[0] == '[' && e.value != "" && e.value[|e.value| - 1] == ']')
  }

  /** The cut of `fgets` does no harm: at most the newline is cut off, or the value
      is empty and the cut falls behind the whole name. */
  predicate FitsChunks(e: Entry) {
    || |PrintEntry(e)| <= 2048
    || (e.value == "" && |e.name| <= 2046)
    || (e.value == "" && |e.name| == 2047 && e.name[|e.name| - 1] != '\r'
        && !(e.name[0] == '[' && e.name[|e.name| - 1] == ']'))
  }

  predicate Survives(e: Entry) { OneLine(e.name) && OneLine(e.value) && PrintableEntry(e) && FitsChunks(e) }

  predicate HeaderSurvives(name: string) { OneLine(name) && Trimmed(name) && |name| <= 2045 }

  lemma {:induction false} CStrIsSame(s: string)
    requires OneLine(s)
    ensures CStr(s) == s
  {
  }

  /** A piece of a line loses its newline, if it has it, and its carriage returns. */
  lemma {:induction false} CleanPiece(b: string)
    requires OneLine(b)
    ensures Clean(b) == TrimRight(b, '\r') && Clean(b + "\n") == TrimRight(b, '\r')
  {
    CStrIsSame(b);
    assert '\0' !in b + "\n";
    assert (b + "\n")[..|b|] == b;
    if b != "" { assert b[|b| - 1] != '\n'; }
    assert TrimRight(b, '\n') == b;
  }

  lemma {:induction false} BracketedLine(name: string)
    ensures ParseLine("[" + name + "]") == Header(Trim(name))
  {
    var l := "[" + name + "]";
    assert l[1..|l| - 1] == name;
  }

  lemma {:induction false} HeaderReadsBack(name: string)
    requires OneLine(name)
    ensures ParseLine(Clean(PrintHeader(name))) == Header(name) <==> Trimmed(name)
  {
    CStrIsSame(name);
    var l := "[" + name + "]";
    assert PrintHeader(name) == l + "\n";
    CleanPiece(l);
    assert TrimRight(l, '\r') == l;
    BracketedLine(name);
  }

  lemma {:induction false} BeforeIs(a: string, b: string, c: char)
    requires c !in a && (b == "" || b[0] == c)
    ensures Before(a + b, c) == a
  {
    if a == "" {
      assert a + b == b;
    } else {
      assert (a + b)[1..] == a[1..] + b;
      BeforeIs(a[1..], b, c);
    }
  }

  lemma {:induction false} BeforeConcat(a: string, b: string, c: char)
    requires c !in a && (b == "" || b[0] == c)
    ensures Before(a + b, c) == a && After(a + b, c) == if b == "" then "" else b[1..]
  {
    BeforeIs(a, b, c);
    if b != "" {
      assert (a + b)[|a|] == c;
      assert (a + b)[|a| + 1..] == b[1..];
    }
  }

  /** How an assignment line is read, with its comment or without. */
  lemma {:induction false} AssignmentIs(left: string, right: string, comment: string)
    requires left != "" && left[0] != '#' && '=' !in left && '#' !in right && (comment == "" || comment[0] == '#')
    requires var line := left + "=" + right + comment; !(line[0] == '[' && line[|line| - 1] == ']')
    ensures ParseLine(left + "=" + right + comment)
            == if Trim(left) == "" then Skip else Assign(Trim(left), Trim(right))
  {
    var line, rest := left + "=" + right + comment, "=" + (right + comment);
    assert line == left + rest;
    BeforeConcat(left, rest, '=');
    assert rest[1..] == right + comment;
    BeforeIs(right, comment, '#');
    SplitLine(line, left, right + comment);
  }

  /** A line without `=` sets an empty value, and a comment sets nothing. */
  lemma {:induction false} OtherLines(line: string)
    requires line != ""
    ensures line[0] == '#' ==> ParseLine(line) == Skip
    ensures '=' !in line && line[0] != '#' && !(line[0] == '[' && line[|line| - 1] == ']') && Trim(line) != "" ==>
              ParseLine(line) == Assign(Trim(line), "")
  {
    if '=' !in line { EmptyValue(); }
  }

  /** A chunk ends at its first NUL. */
  lemma {:induction false} CleanStopsAtNul(a: string, b: string)
    requires '\0' !in a
    ensures Clean(a + "\0" + b) == Clean(a)
  {
    assert a + "\0" + b == a + ("\0" + b);
    BeforeIs(a, "\0" + b, '\0');
  }

  lemma {:induction false} PadKeepsOut(name: string, c: char)
    requires c !in name && c != ' '
    ensures c !in Pad(name)
  {
  }

  /** A printed entry without its newline. */
  function Body(name: string, value: string): string { Pad(name) + " = " + value }

  lemma {:induction false} EntryBody(e: Entry)
    requires OneLine(e.name) && OneLine(e.value)
    ensures PrintEntry(e) == Body(e.name, e.value) + "\n" && OneLine(Body(e.name, e.value))
  {
    CStrIsSame(e.name);
    CStrIsSame(e.value);
    PadKeepsOut(e.name, '\n');
    PadKeepsOut(e.name, '\0');
  }

  lemma {:induction false} TrimBody(name: string, value: string)
    ensures TrimRight(Body(name, value), '\r') == Body(name, TrimRight(value, '\r'))
  {
    TrimRightConcat(Pad(name) + " = ", value, '\r');
  }

  /** Splitting a printed entry whose name has no `=`. */
  lemma {:induction false} SplitEntry(name: string, v: string)
    requires '=' !in name
    ensures Before(Body(name, v), '=') == Pad(name) + " " && After(Body(name, v), '=') == " " + v
  {
    PadKeepsOut(name, '=');
    var left, right := Pad(name) + " ", "= " + v;
    assert Body(name, v) == left + right;
    BeforeConcat(left, right, '=');
    assert right[1..] == " " + v;
  }

  lemma {:induction false} TrimPadded(name: string)
    requires name != "" && Trimmed(name)
    ensures Trim(Pad(name) + " ") == name
  {
    var k := if |name| < 10 then 10 - |name| else 0;
    assert Pad(name) + " " == name + Spaces(k + 1);
    TrimRightConcat(name, Spaces(k + 1), ' ');
    TrimRightSpaces(k + 1);
  }

  lemma {:induction false} TrimSpaced(v: string)
    ensures Trim(" " + v) == Trim(v)
  {
  }

  /** First and last character of the cleaned line. */
  lemma {:induction false} LineEnds(name: string, v: string)
    requires name != ""
    ensures var line := Body(name, v);
            && line != "" && line[0] == name[0]
            && line[|line| - 1] == if v == "" then ' ' else v[|v| - 1]
  {
  }

  lemma {:induction false} CommentSpaced(v: string)
    ensures Before(" " + v, '#') == " " + Before(v, '#')
  {
  }

  /** A line that is neither a comment nor a header is split at its first `=`. */
  lemma {:induction false} SplitLine(line: string, left: string, right: string)
    requires line != "" && line[0] != '#' && !(line[0] == '[' && line[|line| - 1] == ']')
    requires Before(line, '=') == left && After(line, '=') == right
    ensures ParseLine(line) == ParseAssignment(left, right)
  {
  }

  /** How a printed entry, without trailing carriage returns, is parsed. */
  lemma {:induction false} BodyParses(name: string, v: string)
    requires name != "" && Trimmed(name) && '=' !in name
    ensures ParseLine(Body(name, v)) ==
              if name[0] == '#' then Skip
              else if name[0] == '[' && v != "" && v[|v| - 1] == ']' then
                Header(Trim(Body(name, v)[1..|Body(name, v)| - 1]))
              else Assign(name, Trim(Before(v, '#')))
  {
    LineEnds(name, v);
    if name[0] != '#' && !(name[0] == '[' && v != "" && v[|v| - 1] == ']') {
      SplitEntry(name, v);
      SplitLine(Body(name, v), Pad(name) + " ", " " + v);
      TrimPadded(name);
      CommentSpaced(v);
      TrimSpaced(Before(v, '#'));
    }
  }

  lemma {:induction false} CleanEntry(e: Entry)
    requires OneLine(e.name) && OneLine(e.value)
    ensures Clean(PrintEntry(e)) == Body(e.name, TrimRight(e.value, '\r'))
  {
    EntryBody(e);
    CleanPiece(Body(e.name, e.value));
    TrimBody(e.name, e.value);
  }

  lemma {:induction false} TrimIsPart(s: string)
    ensures forall c :: c in Trim(s) ==> c in s
  {
    var i, j := TrimCuts(s);
  }

  /** What an assignment line looks like. */
  lemma {:induction false} AssignmentLine(line: string)
    requires ParseLine(line).Assign?
    ensures var a := ParseLine(line);
            && a.name != "" && Trimmed(a.name) && '=' !in a.name && Trimmed(a.value) && '#' !in a.value
            && (forall c :: c in a.name || c in a.value ==> c in line)
            && |a.name| + |a.value| <= |line|
  {
    var name, value := Before(line, '='), Before(After(line, '='), '#');
    TrimIsPart(name);
    TrimIsPart(value);
    assert forall c :: c in name ==> c in line;
    assert forall c :: c in value ==> c in line;
  }

  lemma {:induction false} ValueIsKept(value: string, u: string)
    requires u == TrimRight(value, '\r') && value == Trim(Before(u, '#'))
    ensures u == value
  {
    assert |value| <= |u|;
  }

  lemma {:induction false} ReadBackEntryIsPrintable(e: Entry, u: string)
    requires u == TrimRight(e.value, '\r') && ParseLine(Body(e.name, u)) == Assign(e.name, e.value)
    ensures PrintableEntry(e)
  {
    AssignmentLine(Body(e.name, u));
    BodyAssigns(e.name, u);
    ValueIsKept(e.value, u);
  }

  lemma {:induction false} BodyAssigns(name: string, v: string)
    requires name != "" && Trimmed(name) && '=' !in name && ParseLine(Body(name, v)).Assign?
    ensures name[0] != '#' && !(name[0] == '[' && v != "" && v[|v| - 1] == ']')
    ensures ParseLine(Body(name, v)).value == Trim(Before(v, '#'))
  {
    BodyParses(name, v);
  }

  lemma {:induction false} PrintableReadsBack(e: Entry)
    requires PrintableEntry(e)
    ensures ParseLine(Body(e.name, TrimRight(e.value, '\r'))) == Assign(e.name, e.value)
  {
    assert TrimRight(e.value, '\r') == e.value;
    BodyParses(e.name, e.value);
  }

  /** The printed line of a one-line entry parses to that entry exactly when the
      entry is printable. */
  lemma {:induction false} EntryReadsBack(e: Entry)
    requires OneLine(e.name) && OneLine(e.value)
    ensures ParseLine(Clean(PrintEntry(e))) == Assign(e.name, e.value) <==> PrintableEntry(e)
  {
    var u := TrimRight(e.value, '\r');
    CleanEntry(e);
    if PrintableEntry(e) { PrintableReadsBack(e); }
    if ParseLine(Body(e.name, u)) == Assign(e.name, e.value) { ReadBackEntryIsPrintable(e, u); }
  }

  // ---- How fgets cuts lines -----------------------------------------------

  /** Nothing, or complete lines. */
  predicate EndsLine(l: string) { l == "" || l[|l| - 1] == '\n' }

  lemma {:induction false} ChunkIsLine(l: string, rest: string, room: nat)
    requires l != "" && |l| <= room && l[|l| - 1] == '\n' && '\n' !in l[..|l| - 1]
    ensures ChunkLen(l + rest, room) == |l|
  {
    if |l| > 1 {
      assert l[0] == l[..|l| - 1][0];
      assert (l + rest)[1..] == l[1..] + rest;
      assert l[1..][..|l| - 2] == l[..|l| - 1][1..];
      ChunkIsLine(l[1..], rest, room - 1);
    }
  }

  /** A line comes back from `fgets` in one piece exactly when it fits the buffer. */
  lemma {:induction false} LineIsOneChunk(l: string, rest: string)
    requires l != "" && l[|l| - 1] == '\n' && '\n' !in l[..|l| - 1]
    ensures ChunkLen(l + rest, BUFFER - 1) == |l| <==> |l| <= 2047
  {
    if |l| < BUFFER { ChunkIsLine(l, rest, BUFFER - 1); }
  }

  /** A full buffer without a newline. */
  lemma {:induction false} ChunkIsFull(text: string, room: nat)
    requires room <= |text| && '\n' !in text[..room]
    ensures ChunkLen(text, room) == room
  {
    if room > 0 {
      assert text[0] == text[..room][0];
      assert text[1..][..room - 1] == text[..room][1..];
      ChunkIsFull(text[1..], room - 1);
    }
  }

  /** The chunks of a line that fits two buffers. */
  lemma {:induction false} LineChunks(body: string)
    requires OneLine(body) && |body| < 2 * BUFFER - 2
    ensures Chunks(body + "\n") == if |body| <= BUFFER - 2 then [body + "\n"]
                                   else [body[..BUFFER - 1], body[BUFFER - 1..] + "\n"]
  {
    if |body| <= BUFFER - 2 {
      OneChunk(body);
    } else {
      var n := BUFFER - 1;
      SplitPrefix(body, "\n", n);
      ChunkIsFull(body + "\n", n);
      OneChunk(body[n..]);
    }
  }

  lemma {:induction false} OneChunk(body: string)
    requires '\n' !in body && |body| <= BUFFER - 2
    ensures Chunks(body + "\n") == [body + "\n"]
  {
    var l := body + "\n";
    SplitConcat(body, "\n");
    ChunkIsLine(l, "", BUFFER - 1);
    assert l + "" == l;
    TakeAll(l);
    assert l[|l|..] == "";
  }

  /** Nothing of the text is lost between the chunks. */
  lemma {:induction false} ChunksConserve(text: string)
    ensures Flatten(Chunks(text)) == text
    decreases |text|
  {
    if text != "" {
      var n := ChunkLen(text, BUFFER - 1);
      ChunksConserve(text[n..]);
      SplitConcat([text[..n]], Chunks(text[n..]));
      assert text[..n] + text[n..] == text;
    }
  }

  lemma {:induction false} ChunkLenConcat(l: string, rest: string, room: nat)
    requires l != "" && EndsLine(l)
    ensures ChunkLen(l + rest, room) == ChunkLen(l, room)
  {
    if l[0] != '\n' && room > 0 {
      assert (l + rest)[1..] == l[1..] + rest;
      ChunkLenConcat(l[1..], rest, room - 1);
    }
  }

  /** Complete lines are cut without regard to what follows them. */
  lemma {:induction false} ChunksConcat(l: string, rest: string)
    requires EndsLine(l)
    ensures Chunks(l + rest) == Chunks(l) + Chunks(rest)
    decreases |l|
  {
    if l == "" {
      assert l + rest == rest;
    } else {
      var n := ChunkLen(l, BUFFER - 1);
      ChunkLenConcat(l, rest, BUFFER - 1);
      SplitPrefix(l, rest, n);
      ChunksConcat(l[n..], rest);
      ConcatAssoc([l[..n]], Chunks(l[n..]), Chunks(rest));
    }
  }

  lemma {:induction false} LinesConcat(l: string, rest: string)
    requires EndsLine(l)
    ensures Lines(l + rest) == Lines(l) + Lines(rest)
  {
    ChunksConcat(l, rest);
  }

  /** The lines read from some printed lines, one after the other. */
  function LineByLine(ls: seq<string>): seq<Line> {
    if ls == [] then [] else LineByLine(ls[..|ls| - 1]) + Lines(ls[|ls| - 1])
  }

  lemma {:induction false} FlattenEndsLine(ls: seq<string>)
    requires forall i :: 0 <= i < |ls| ==> EndsLine(ls[i])
    ensures EndsLine(Flatten(ls))
  {
    if ls != [] { FlattenEndsLine(ls[1..]); }
  }

  lemma {:induction false} LinesOfText(ls: seq<string>)
    requires forall i :: 0 <= i < |ls| ==> EndsLine(ls[i])
    ensures Lines(Flatten(ls)) == LineByLine(ls)
  {
    if ls != [] {
      var k := |ls| - 1;
      LinesOfText(ls[..k]);
      TakeSnoc(ls, k);
      TakeAll(ls);
      FlattenAppend(ls[..k], ls[k]);
      FlattenEndsLine(ls[..k]);
      LinesConcat(Flatten(ls[..k]), ls[k]);
    }
  }

  lemma {:induction false} LineByLineConcat(a: seq<string>, b: seq<string>)
    ensures LineByLine(a + b) == LineByLine(a) + LineByLine(b)
  {
    if b == [] {
      assert a + b == a;
    } else {
      var k := |b| - 1;
      assert (a + b)[..|a + b| - 1] == a + b[..k];
      LineByLineConcat(a, b[..k]);
      ConcatAssoc(LineByLine(a), LineByLine(b[..k]), Lines(b[k]));
    }
  }

  lemma {:induction false} OneLineByLine(l: string)
    ensures LineByLine([l]) == Lines(l)
  {
    assert [l][..0] == [];
    SplitConcat([], Lines(l));
  }

  lemma {:induction false} SourceOfLine(ls: seq<string>, a: Line) returns (i: nat)
    requires a in LineByLine(ls)
    ensures i < |ls| && a in Lines(ls[i])
  {
    var k := |ls| - 1;
    if a in Lines(ls[k]) { i := k; } else { i := SourceOfLine(ls[..k], a); }
  }

  lemma {:induction false} ChunkShape(text: string, c: string)
    requires c in Chunks(text)
    ensures 0 < |c| < BUFFER && '\n' !in c[..|c| - 1]
    decreases |text|
  {
    var n := ChunkLen(text, BUFFER - 1);
    if c == text[..n] { ChunkStopsAtNewline(text, BUFFER - 1); } else { ChunkShape(text[n..], c); }
  }

  lemma {:induction false} ChunkStopsAtNewline(text: string, room: nat)
    ensures forall i :: 0 <= i < ChunkLen(text, room) - 1 ==> text[i] != '\n'
  {
    if text != "" && room > 0 && text[0] != '\n' {
      ChunkStopsAtNewline(text[1..], room - 1);
      forall i | 0 <= i < ChunkLen(text, room) - 1 ensures text[i] != '\n' {
        if i > 0 { assert text[i] == text[1..][i - 1]; }
      }
    }
  }

  // ---- What a reader can hold ---------------------------------------------

  /** An entry that some chunk can assign. */
  predicate Assignable(e: Entry) {
    && OneLine(e.name) && OneLine(e.value) && |e.name| + |e.value| < BUFFER
    && e.name != "" && Trimmed(e.name) && '=' !in e.name && Trimmed(e.value) && '#' !in e.value
  }

  lemma {:induction false} CleanChunk(c: string)
    requires c != "" && '\n' !in c[..|c| - 1]
    ensures OneLine(Clean(c)) && |Clean(c)| <= |c|
  {
    var t := TrimRight(CStr(c), '\n');
    assert forall i :: 0 <= i < |t| ==> t[i] == c[i];
    assert '\n' !in t;
  }

  /** What a line of at most 2047 characters can set. */
  predicate Possible(a: Line) {
    match a
    case Skip => true
    case Header(section) => HeaderSurvives(section)
    case Assign(name, value) => Assignable(Entry(name, value))
  }

  lemma {:induction false} LineIsPossible(line: string)
    requires OneLine(line) && |line| < BUFFER
    ensures Possible(ParseLine(line))
  {
    var a := ParseLine(line);
    if a.Assign? { AssignmentLine(line); }
    if a.Header? {
      var inner := line[1..|line| - 1];
      assert forall x :: x in inner ==> x in line;
      TrimIsPart(inner);
    }
  }

  lemma {:induction false} LinesArePossible(text: string, a: Line)
    requires a in Lines(text)
    ensures Possible(a)
  {
    var i :| 0 <= i < |Lines(text)| && Lines(text)[i] == a;
    var c := Chunks(text)[i];
    ChunkShape(text, c);
    CleanChunk(c);
    LineIsPossible(Clean(c));
  }

  /** Names and entries of this reader come from these lines, except that the
      section may be the one it started in. */
  ghost predicate ReadFrom(lines: seq<Line>, start: string, r: Reader) {
    && (r.section == start || Header(r.section) in lines)
    && forall i :: 0 <= i < |r.store| ==>
         && (r.store[i].name == start || Header(r.store[i].name) in lines)
         && forall e :: e in r.store[i].entries ==> Assign(e.name, e.value) in lines
  }

  lemma {:induction false} SetAdds(st: Store, section: string, name: string, value: string)
    ensures var st' := Set(st, section, name, value);
            && |st| <= |st'| && st' != []
            && (forall i :: 0 <= i < |st| ==> st'[i].name == st[i].name)
            && (forall i :: |st| <= i < |st'| ==> st'[i].name == section && st'[i].entries == [Entry(name, value)])
            && (forall i, e :: 0 <= i < |st| && e in st'[i].entries ==>
                  e == Entry(name, value) || e in st[i].entries)
  {
  }

  lemma {:induction false} EverythingIsRead(start: string, lines: seq<Line>)
    ensures ReadFrom(lines, start, Read(Reader([], start), lines))
  {
    if lines != [] {
      var k := |lines| - 1;
      EverythingIsRead(start, lines[..k]);
      var r, a := Read(Reader([], start), lines[..k]), lines[k];
      if a.Assign? { SetAdds(r.store, r.section, a.name, a.value); }
    }
  }

  // ---- One entry through the chunks ---------------------------------------

  function Weight(e: Entry): nat { |e.name| + |e.value| }

  /** What the first chunk of the line of `e` assigns: `e` exactly if it survives,
      or something lighter, or nothing. */
  ghost predicate FirstPart(e: Entry, survives: bool, a: Line) {
    && (a == Assign(e.name, e.value) <==> survives)
    && (a.Assign? && a != Assign(e.name, e.value) ==> |a.name| + |a.value| < Weight(e))
  }

  /** The trimmed part of a trimmed value that has no comment sign. */
  lemma {:induction false} TrimPrefix(value: string, u: string)
    requires Trimmed(value) && '#' !in value && u <= value
    ensures Before(u, '#') == u && (Trim(u) == value || |Trim(u)| < |value|)
  {
    assert forall i :: 0 <= i < |u| ==> u[i] == value[i];
    if |u| == |value| { assert u == value; }
  }

  lemma {:induction false} WholeBody(e: Entry)
    requires Assignable(e) && |Body(e.name, e.value)| < BUFFER
    ensures FirstPart(e, Survives(e), ParseLine(TrimRight(Body(e.name, e.value), '\r')))
  {
    var u := TrimRight(e.value, '\r');
    EntryBody(e);
    CleanPiece(Body(e.name, e.value));
    EntryReadsBack(e);
    TrimBody(e.name, e.value);
    BodyParses(e.name, u);
    TrimPrefix(e.value, u);
  }

  /** The cut falls into the value. */
  lemma {:induction false} CutInValue(e: Entry)
    requires Assignable(e) && |Body(e.name, e.value)| >= BUFFER && |Pad(e.name)| + 3 < BUFFER
    ensures FirstPart(e, Survives(e), ParseLine(TrimRight(Body(e.name, e.value)[..BUFFER - 1], '\r')))
  {
    var m := BUFFER - 1 - |Pad(e.name)| - 3;
    var u := TrimRight(e.value[..m], '\r');
    assert Body(e.name, e.value)[..BUFFER - 1] == Body(e.name, e.value[..m]);
    TrimBody(e.name, e.value[..m]);
    BodyParses(e.name, u);
    TrimPrefix(e.value, u);
    EntryBody(e);
  }

  /** A long name with what is left of the separator. */
  lemma {:induction false} NameOnly(name: string, sep: string)
    requires |name| >= 10 && Trimmed(name) && '=' !in name && |sep| <= 1 && (sep == "" || sep[0] == '=')
    ensures ParseLine(TrimRight(name + " " + sep, '\r')) == if name[0] == '#' then Skip else Assign(name, "")
  {
    assert Pad(name) == name;
    TrimPadded(name);
    LeftOnly(name + " ", name, sep);
  }

  lemma {:induction false} LeftOnly(left: string, name: string, sep: string)
    requires name != "" && left != "" && left[|left| - 1] == ' ' && Trim(left) == name && '=' !in left
    requires |sep| <= 1 && (sep == "" || sep[0] == '=')
    ensures ParseLine(TrimRight(left + sep, '\r')) == if left[0] == '#' then Skip else Assign(name, "")
  {
    var line := left + sep;
    assert line[0] == left[0] && line[|line| - 1] == if sep == "" then ' ' else '=';
    assert TrimRight(line, '\r') == line;
    LeftSplits(left, sep);
    EmptyValue();
    if line[0] != '#' { SplitLine(line, left, ""); }
  }

  lemma {:induction false} LeftSplits(left: string, sep: string)
    requires '=' !in left && |sep| <= 1 && (sep == "" || sep[0] == '=')
    ensures Before(left + sep, '=') == left && After(left + sep, '=') == ""
  {
    BeforeConcat(left, sep, '=');
  }

  lemma {:induction false} EmptyValue()
    ensures Trim(Before("", '#')) == ""
  {
  }

  lemma {:induction false} BareName(name: string)
    requires name != "" && Trimmed(name) && '=' !in name
    ensures var a := ParseLine(TrimRight(name, '\r'));
            && (a == Assign(name, "") <==> && name[0] != '#' && name[|name| - 1] != '\r'
                                           && !(name[0] == '[' && name[|name| - 1] == ']'))
            && (a.Assign? && a != Assign(name, "") ==> |a.name| + |a.value| < |name|)
  {
    var w := TrimRight(name, '\r');
    assert forall i :: 0 <= i < |w| ==> w[i] == name[i];
    assert Before(w, '=') == w && After(w, '=') == "";
    if |w| == |name| { assert w == name; }
  }

  lemma {:induction false} CutBehindName(e: Entry)
    requires Assignable(e) && |e.name| == BUFFER - 1
    ensures FirstPart(e, Survives(e), ParseLine(TrimRight(Body(e.name, e.value)[..BUFFER - 1], '\r')))
  {
    assert Pad(e.name) == e.name && Body(e.name, e.value)[..BUFFER - 1] == e.name;
    EntryBody(e);
    BareName(e.name);
  }

  /** The cut falls between a long name and its value. */
  lemma {:induction false} CutInSeparator(e: Entry)
    requires Assignable(e) && BUFFER - 3 <= |e.name| < BUFFER - 1
    ensures FirstPart(e, Survives(e), ParseLine(TrimRight(Body(e.name, e.value)[..BUFFER - 1], '\r')))
  {
    var sep := if |e.name| == BUFFER - 2 then "" else "=";
    assert Pad(e.name) == e.name && Body(e.name, e.value)[..BUFFER - 1] == e.name + " " + sep;
    EntryBody(e);
    NameOnly(e.name, sep);
  }

  /** What a survivor leaves behind the cut. */
  lemma {:induction false} SurvivorRest(e: Entry)
    requires Survives(e) && |Body(e.name, e.value)| >= BUFFER - 1
    ensures Body(e.name, e.value)[BUFFER - 1..] in ["", " ", "= ", " = "]
  {
    EntryBody(e);
    var body := Body(e.name, e.value);
    if |body| >= BUFFER {
      assert body == e.name + " = ";
      var k := BUFFER - 1 - |e.name|;
      assert body[BUFFER - 1..] == " = "[k..];
      assert " = "[2..] == " " && " = "[1..] == "= " && " = "[0..] == " = ";
    } else {
      assert body[BUFFER - 1..] == "";
    }
  }

  lemma {:induction false} SeparatorIsSkipped(s: string)
    requires s in ["", " ", "= ", " = "]
    ensures ParseLine(TrimRight(s, '\r')) == Skip
  {
    if s != "" {
      var left := if s[0] == '=' then "" else " ";
      assert s == left + s[|left|..];
      BeforeIs(left, s[|left|..], '=');
      SplitLine(s, left, After(s, '='));
      OnlySpaces();
    }
  }

  lemma {:induction false} OnlySpaces()
    ensures Trim("") == "" && Trim(" ") == ""
  {
  }

  lemma {:induction false} RestIsLight(e: Entry)
    requires Assignable(e) && |Body(e.name, e.value)| >= BUFFER - 1
    ensures var a := ParseLine(TrimRight(Body(e.name, e.value)[BUFFER - 1..], '\r'));
            a.Assign? ==> |a.name| + |a.value| < Weight(e)
  {
    var line := TrimRight(Body(e.name, e.value)[BUFFER - 1..], '\r');
    if ParseLine(line).Assign? { AssignmentLine(line); }
  }

  /** What the one or two chunks of the line of `e` assign. */
  ghost predicate Parts(e: Entry, survives: bool, lines: seq<Line>) {
    && 1 <= |lines| <= 2 && FirstPart(e, survives, lines[0])
    && (|lines| == 2 ==> && (lines[1].Assign? ==> |lines[1].name| + |lines[1].value| < Weight(e))
                         && (survives ==> lines[1] == Skip))
  }

  lemma {:induction false} FirstPiece(e: Entry)
    requires Assignable(e)
    ensures var body := Body(e.name, e.value);
            var first := if |body| < BUFFER then body else body[..BUFFER - 1];
            FirstPart(e, Survives(e), ParseLine(TrimRight(first, '\r')))
  {
    if |Body(e.name, e.value)| < BUFFER { WholeBody(e); }
    else if |Pad(e.name)| + 3 < BUFFER { CutInValue(e); }
    else if |e.name| == BUFFER - 1 { CutBehindName(e); }
    else { CutInSeparator(e); }
  }

  lemma {:induction false} SecondPiece(e: Entry)
    requires Assignable(e) && |Body(e.name, e.value)| >= BUFFER - 1
    ensures var a := ParseLine(TrimRight(Body(e.name, e.value)[BUFFER - 1..], '\r'));
            (a.Assign? ==> |a.name| + |a.value| < Weight(e)) && (Survives(e) ==> a == Skip)
  {
    RestIsLight(e);
    if Survives(e) {
      SurvivorRest(e);
      SeparatorIsSkipped(Body(e.name, e.value)[BUFFER - 1..]);
    }
  }

  /** The chunks of a printed entry. */
  lemma {:induction false} EntryChunks(e: Entry)
    requires Assignable(e)
    ensures Parts(e, Survives(e), Lines(PrintEntry(e)))
  {
    var body := Body(e.name, e.value);
    EntryBody(e);
    LineChunks(body);
    FirstPiece(e);
    if |body| < BUFFER - 1 {
      CleanPiece(body);
    } else {
      if |body| < BUFFER { TakeAll(body); }
      CleanPiece(body[..BUFFER - 1]);
      CleanPiece(body[BUFFER - 1..]);
      SecondPiece(e);
    }
  }

  lemma {:induction false} SurvivorIsAssignable(e: Entry)
    requires Survives(e)
    ensures Assignable(e)
  {
    EntryBody(e);
  }

  /** The first line, with at most an idle one behind it. */
  predicate Alone(lines: seq<Line>, a: Line) {
    1 <= |lines| <= 2 && lines[0] == a && (|lines| == 2 ==> lines[1] == Skip)
  }

  lemma {:induction false} ReadAlone(r: Reader, lines: seq<Line>, a: Line)
    requires Alone(lines, a)
    ensures Read(r, lines) == Apply(r, a)
  {
    assert lines[..1] == [a] && [a][..0] == [];
    assert Read(r, [a]) == Apply(Read(r, []), a);
    if |lines| == 1 { assert lines == [a]; }
  }

  lemma {:induction false} SurvivorReads(r: Reader, e: Entry)
    requires Survives(e)
    ensures Read(r, Lines(PrintEntry(e))) == Apply(r, Assign(e.name, e.value))
  {
    SurvivorIsAssignable(e);
    EntryChunks(e);
    ReadAlone(r, Lines(PrintEntry(e)), Assign(e.name, e.value));
  }

  /** The line of an entry assigns only that entry if it survives, and otherwise
      only lighter ones. */
  lemma {:induction false} EntryLineAssigns(e: Entry, a: Line)
    requires Assignable(e) && a in Lines(PrintEntry(e)) && a.Assign?
    ensures if Survives(e) then a == Assign(e.name, e.value) else |a.name| + |a.value| < Weight(e)
  {
    EntryChunks(e);
    PartAssigns(e, Survives(e), Lines(PrintEntry(e)), a);
  }

  lemma {:induction false} PartAssigns(e: Entry, survives: bool, lines: seq<Line>, a: Line)
    requires Parts(e, survives, lines) && a in lines && a.Assign?
    ensures if survives then a == Assign(e.name, e.value) else |a.name| + |a.value| < Weight(e)
  {
  }

  /** A printed entry, cut by `fgets` as it may be, reads back as itself exactly
      when it survives. */
  lemma {:induction false} EntryRoundTrip(section: string, e: Entry)
    ensures Read(Reader([], section), Lines(PrintEntry(e))) == Reader([Section(section, [e])], section) <==> Survives(e)
  {
    var lines := Lines(PrintEntry(e));
    var r := Read(Reader([], section), lines);
    if Survives(e) { SurvivorReads(Reader([], section), e); }
    if r == Reader([Section(section, [e])], section) {
      EverythingIsRead(section, lines);
      assert e in r.store[0].entries;
      LinesArePossible(PrintEntry(e), Assign(e.name, e.value));
      EntryLineAssigns(e, Assign(e.name, e.value));
    }
  }

  /** A value with a comment sign does not come back. */
  lemma {:induction false} CommentIsLost()
    ensures var e := Entry("n", "a#b");
            Read(Reader([], "s"), Lines(PrintEntry(e))) != Reader([Section("s", [e])], "s")
  {
    assert "a#b"[1] == '#';
    EntryRoundTrip("s", Entry("n", "a#b"));
  }

  // ---- One header through the chunks --------------------------------------

  /** A line of which at most the newline is cut off. */
  lemma {:induction false} ReadsAsOne(body: string, a: Line)
    requires OneLine(body) && |body| < BUFFER && ParseLine(TrimRight(body, '\r')) == a
    ensures Alone(Lines(body + "\n"), a)
  {
    LineChunks(body);
    CleanPiece(body);
    if |body| == BUFFER - 1 {
      TakeAll(body);
      assert body[BUFFER - 1..] == "";
      EmptyPiece();
    }
  }

  lemma {:induction false} EmptyPiece()
    ensures ParseLine(Clean("" + "\n")) == Skip
  {
    CleanPiece("");
  }

  lemma {:induction false} HeaderChunks(name: string)
    requires HeaderSurvives(name)
    ensures Alone(Lines(PrintHeader(name)), Header(name))
  {
    CStrIsSame(name);
    var body := "[" + name + "]";
    assert PrintHeader(name) == body + "\n";
    BracketedLine(name);
    assert TrimRight(body, '\r') == body;
    ReadsAsOne(body, Header(name));
  }

  /** A chunk that opens with a bracket sets a section or a value. */
  lemma {:induction false} BracketIsNotSkipped(line: string)
    requires line != "" && line[0] == '['
    ensures ParseLine(line) != Skip
  {
    var b := Before(line, '=');
    if '=' in line { assert line[|b|] == '='; }
    assert b != "" && b[0] == '[';
    assert TrimLeft(b, ' ') == b;
    TrimKeepsFirst(b, ' ');
  }

  lemma {:induction false} FirstHeaderLine(name: string)
    ensures var lines := Lines(PrintHeader(name)); lines != [] && lines[0] != Skip
  {
    var text := PrintHeader(name);
    var c := text[..ChunkLen(text, BUFFER - 1)];
    assert text[0] == '[' && c[0] == '[';
    var t := CStr(c);
    assert t != "" && t[0] == '[';
    TrimKeepsFirst(t, '\n');
    TrimKeepsFirst(TrimRight(t, '\n'), '\r');
    BracketIsNotSkipped(Clean(c));
    assert Chunks(text)[0] == c;
  }

  lemma {:induction false} TrimKeepsFirst(s: string, c: char)
    requires s != "" && s[0] != c
    ensures TrimRight(s, c) != "" && TrimRight(s, c)[0] == s[0]
  {
    if s[|s| - 1] == c { TrimKeepsFirst(s[..|s| - 1], c); }
  }

  /** Once a value or a good section has been read, one of the two remains. */
  lemma {:induction false} SettledStays(r: Reader, lines: seq<Line>)
    requires forall i :: 0 <= i < |lines| ==> Possible(lines[i])
    requires r.store != [] || HeaderSurvives(r.section)
    ensures var r' := Read(r, lines); r'.store != [] || HeaderSurvives(r'.section)
  {
    if lines != [] {
      var k := |lines| - 1;
      SettledStays(r, lines[..k]);
      var m, a := Read(r, lines[..k]), lines[k];
      if a.Assign? { SetAdds(m.store, m.section, a.name, a.value); }
    }
  }

  /** A first line that is not idle leaves a value or a good section. */
  lemma {:induction false} SettledAfterFirst(current: string, lines: seq<Line>)
    requires lines != [] && lines[0] != Skip && forall i :: 0 <= i < |lines| ==> Possible(lines[i])
    ensures var r := Read(Reader([], current), lines); r.store != [] || HeaderSurvives(r.section)
  {
    var start, a := Reader([], current), lines[0];
    ReadAlone(start, [a], a);
    if a.Assign? { SetAdds([], current, a.name, a.value); }
    assert lines == [a] + lines[1..];
    ReadConcat(start, [a], lines[1..]);
    SettledStays(Apply(start, a), lines[1..]);
  }

  /** A printed header sets the section to its name, and no value, exactly when
      the name survives. */
  lemma {:induction false} HeaderRoundTrip(current: string, name: string)
    ensures Read(Reader([], current), Lines(PrintHeader(name))) == Reader([], name) <==> HeaderSurvives(name)
  {
    var text := PrintHeader(name);
    if HeaderSurvives(name) {
      HeaderChunks(name);
      ReadAlone(Reader([], current), Lines(text), Header(name));
    }
    FirstHeaderLine(name);
    forall i | 0 <= i < |Lines(text)| ensures Possible(Lines(text)[i]) { LinesArePossible(text, Lines(text)[i]); }
    SettledAfterFirst(current, Lines(text));
  }

  // ---- The whole file -----------------------------------------------------

  lemma {:induction false} ReadConcat(r: Reader, a: seq<Line>, b: seq<Line>)
    ensures Read(r, a + b) == Read(Read(r, a), b)
  {
    if b == [] {
      assert a + b == a;
    } else {
      assert (a + b)[..|a + b| - 1] == a + b[..|b| - 1];
      ReadConcat(r, a, b[..|b| - 1]);
    }
  }

  lemma SetEntryAppends(es: seq<Entry>, e: Entry)
    requires FindEntry(es, e.name) == |es|
    ensures SetEntry(es, e.name, e.value) == es + [e]
  {
  }

  lemma AssignAppends(st: Store, name: string, es: seq<Entry>, e: Entry)
    requires FindSection(st, name) == |st| && FindEntry(es, e.name) == |es|
    ensures Set(st + [Section(name, es)], name, e.name, e.value) == st + [Section(name, es + [e])]
  {
    var st1 := st + [Section(name, es)];
    FindSectionIs(st1, name, |st|);
    SetEntryAppends(es, e);
    assert st1[|st| := Section(name, es + [e])] == st + [Section(name, es + [e])];
  }

  lemma LastEntry(es: seq<Entry>)
    requires es != []
    ensures var k := |es| - 1; es == es[..k] + [es[k]] && (k == 0 ==> es == [es[k]])
  {
  }

  /** Reading one printed entry into the section being filled. */
  lemma EntryReadsInto(st: Store, name: string, es: seq<Entry>)
    requires es != [] && DistinctEntries(es) && FindSection(st, name) == |st|
    ensures var k := |es| - 1;
            Set(if k == 0 then st else st + [Section(name, es[..k])], name, es[k].name, es[k].value)
            == st + [Section(name, es)]
  {
    var k := |es| - 1;
    LastEntry(es);
    if k > 0 {
      FindEntryIs(es[..k], es[k].name, k);
      AssignAppends(st, name, es[..k], es[k]);
    }
  }

  lemma {:induction false} NextEntryReads(r: Reader, lines: seq<Line>, e: Entry)
    requires Survives(e)
    ensures Read(r, lines + Lines(PrintEntry(e))) == Apply(Read(r, lines), Assign(e.name, e.value))
  {
    ReadConcat(r, lines, Lines(PrintEntry(e)));
    SurvivorReads(Read(r, lines), e);
  }

  lemma {:induction false} LinesOfEntries(es: seq<Entry>)
    requires es != []
    ensures var k := |es| - 1;
            LineByLine(EntryLines(es)) == LineByLine(EntryLines(es[..k])) + Lines(PrintEntry(es[k]))
  {
    assert EntryLines(es)[..|es| - 1] == EntryLines(es[..|es| - 1]);
  }

  /** Reading the lines of a new section rebuilds its entries in order. */
  lemma {:induction false} EntriesReadBack(st: Store, name: string, es: seq<Entry>)
    requires es != [] && DistinctEntries(es) && FindSection(st, name) == |st|
    requires forall e :: e in es ==> Survives(e)
    ensures Read(Reader(st, name), LineByLine(EntryLines(es))) == Reader(st + [Section(name, es)], name)
  {
    var k := |es| - 1;
    EntryReadsInto(st, name, es);
    LinesOfEntries(es);
    if k > 0 { EntriesReadBack(st, name, es[..k]); }
    NextEntryReads(Reader(st, name), LineByLine(EntryLines(es[..k])), es[k]);
  }

  lemma {:induction false} BlankLine()
    ensures Lines("\n") == [Skip]
  {
    OneChunk("");
    CleanPiece("");
    assert "" + "\n" == "\n";
  }

  /** A printed section, line by line. */
  lemma {:induction false} LinesOfSection(s: Section)
    requires s.entries != []
    ensures LineByLine(SectionLines(s)) == Lines(PrintHeader(s.name)) + LineByLine(EntryLines(s.entries)) + [Skip]
  {
    var head, mid, tail := [PrintHeader(s.name)], EntryLines(s.entries), ["\n"];
    LineByLineConcat(head + mid, tail);
    LineByLineConcat(head, mid);
    OneLineByLine(PrintHeader(s.name));
    OneLineByLine("\n");
    BlankLine();
  }

  ghost predicate PrintableSection(s: Section) { HeaderSurvives(s.name) && forall e :: e in s.entries ==> Survives(e) }

  /** Every section that has values survives, and so do its values. */
  ghost predicate Printable(st: Store) { forall s :: s in st && s.entries != [] ==> PrintableSection(s) }

  lemma {:induction false} SectionReadsBack(r: Reader, s: Section)
    requires PrintableSection(s) && s.entries != [] && DistinctEntries(s.entries)
    requires FindSection(r.store, s.name) == |r.store|
    ensures Read(r, LineByLine(SectionLines(s))).store == r.store + [s]
  {
    var head, mid := Lines(PrintHeader(s.name)), LineByLine(EntryLines(s.entries));
    LinesOfSection(s);
    ReadConcat(r, head + mid, [Skip]);
    ReadConcat(r, head, mid);
    HeaderChunks(s.name);
    ReadAlone(r, head, Header(s.name));
    EntriesReadBack(r.store, s.name, s.entries);
    ReadAlone(Reader(r.store + [s], s.name), [Skip], Skip);
  }

  /** The sections that have values, in order. */
  function NonEmpty(st: Store): Store {
    if st == [] then [] else NonEmpty(st[..|st| - 1]) + if st[|st| - 1].entries == [] then [] else [st[|st| - 1]]
  }

  lemma {:induction false} NonEmptyHas(st: Store, s: Section)
    ensures s in NonEmpty(st) <==> s in st && s.entries != []
  {
    if st != [] {
      var k := |st| - 1;
      NonEmptyHas(st[..k], s);
      TakeSnoc(st, k);
      TakeAll(st);
    }
  }

  /** Sections without values leave no trace in the file. */
  lemma {:induction false} PrintsNonEmpty(st: Store)
    ensures PrintedLines(NonEmpty(st)) == PrintedLines(st)
  {
    if st != [] {
      var k := |st| - 1;
      PrintsNonEmpty(st[..k]);
      var ne := NonEmpty(st[..k]);
      if st[k].entries == [] {
        assert NonEmpty(st) == ne + [] == ne;
        assert PrintedLines(st) == PrintedLines(st[..k]) + [] == PrintedLines(st[..k]);
      } else {
        assert (ne + [st[k]])[..|ne|] == ne;
      }
    }
  }

  lemma {:induction false} EntryEndsLine(e: Entry)
    ensures EndsLine(PrintEntry(e))
  {
  }

  lemma {:induction false} SectionEndsLine(s: Section)
    ensures forall l :: l in SectionLines(s) ==> EndsLine(l)
  {
    forall l | l in EntryLines(s.entries) ensures EndsLine(l) {
      var i :| 0 <= i < |s.entries| && EntryLines(s.entries)[i] == l;
      EntryEndsLine(s.entries[i]);
    }
  }

  lemma {:induction false} PrintedEndsLine(st: Store)
    ensures forall l :: l in PrintedLines(st) ==> EndsLine(l)
  {
    if st != [] {
      PrintedEndsLine(st[..|st| - 1]);
      SectionEndsLine(st[|st| - 1]);
    }
  }

  lemma {:induction false} LinesOfPrint(st: Store)
    ensures Lines(Print(st)) == LineByLine(PrintedLines(st))
  {
    PrintedEndsLine(st);
    LinesOfText(PrintedLines(st));
  }

  /** One more section at the end of the file. */
  lemma {:induction false} NextSectionReadsBack(lines: seq<Line>, st: Store, s: Section)
    requires PrintableSection(s) && s.entries != [] && DistinctEntries(s.entries)
    requires FindSection(st, s.name) == |st| && Read(Reader([], ""), lines).store == st
    ensures Read(Reader([], ""), lines + LineByLine(SectionLines(s))).store == st + [s]
  {
    ReadConcat(Reader([], ""), lines, LineByLine(SectionLines(s)));
    SectionReadsBack(Read(Reader([], ""), lines), s);
  }

  /** Printable sections with values are read back in order. */
  lemma {:induction false} LinesReadBack(st: Store)
    requires WellFormed(st) && forall i :: 0 <= i < |st| ==> PrintableSection(st[i]) && st[i].entries != []
    ensures Read(Reader([], ""), LineByLine(PrintedLines(st))).store == st
  {
    if st != [] {
      var k := |st| - 1;
      LinesReadBack(st[..k]);
      LineByLineConcat(PrintedLines(st[..k]), SectionLines(st[k]));
      FindSectionIs(st[..k], st[k].name, k);
      NextSectionReadsBack(LineByLine(PrintedLines(st[..k])), st[..k], st[k]);
      TakeSnoc(st, k);
      TakeAll(st);
    }
  }

  // ---- Nothing else reads back --------------------------------------------

  /** Where a printed line comes from: `j` is -1 for a header. */
  lemma {:induction false} LineSource(st: Store, l: string) returns (s: Section, j: int)
    requires l in PrintedLines(st) && l != "\n"
    ensures s in st && -1 <= j < |s.entries|
    ensures l == if j < 0 then PrintHeader(s.name) else PrintEntry(s.entries[j])
  {
    var k := |st| - 1;
    if l in PrintedLines(st[..k]) {
      s, j := LineSource(st[..k], l);
    } else {
      s := st[k];
      j := SectionLineSource(s, l);
    }
  }

  lemma {:induction false} SectionLineSource(s: Section, l: string) returns (j: int)
    requires l in SectionLines(s) && l != "\n"
    ensures -1 <= j < |s.entries|
    ensures l == if j < 0 then PrintHeader(s.name) else PrintEntry(s.entries[j])
  {
    if l == PrintHeader(s.name) { return -1; }
    assert l in EntryLines(s.entries);
    j :| 0 <= j < |s.entries| && l == EntryLines(s.entries)[j];
  }

  ghost predicate Holds(st: Store, e: Entry) { exists s :: s in st && e in s.entries }

  /** Everything in a store that reads back is what lines can make. */
  lemma {:induction false} ReadBackIsAssignable(st: Store)
    requires Parse([], Print(st)) == st
    ensures forall s :: s in st ==> HeaderSurvives(s.name)
    ensures forall e :: Holds(st, e) ==> Assignable(e) && Assign(e.name, e.value) in Lines(Print(st))
  {
    var text := Print(st);
    EverythingIsRead("", Lines(text));
    forall s | s in st ensures HeaderSurvives(s.name) {
      var i :| 0 <= i < |st| && st[i] == s;
      if s.name != "" { LinesArePossible(text, Header(s.name)); }
    }
    forall e | Holds(st, e) ensures Assignable(e) && Assign(e.name, e.value) in Lines(text) {
      var s :| s in st && e in s.entries;
      var i :| 0 <= i < |st| && st[i] == s;
      LinesArePossible(text, Assign(e.name, e.value));
    }
  }

  lemma {:induction false} AloneHas(lines: seq<Line>, a: Line, b: Line)
    requires Alone(lines, a) && b in lines
    ensures b == a || b == Skip
  {
  }

  lemma {:induction false} HeaderAssignsNothing(name: string, a: Line)
    requires HeaderSurvives(name) && a in Lines(PrintHeader(name))
    ensures !a.Assign?
  {
    HeaderChunks(name);
    AloneHas(Lines(PrintHeader(name)), Header(name), a);
  }

  /** An assignment read from a printed store is read from the line of an entry. */
  lemma {:induction false} AssigningEntry(st: Store, a: Line) returns (g: Entry)
    requires a in LineByLine(PrintedLines(st)) && a.Assign?
    requires forall s :: s in st ==> HeaderSurvives(s.name)
    ensures Holds(st, g) && a in Lines(PrintEntry(g))
  {
    var i := SourceOfLine(PrintedLines(st), a);
    BlankLine();
    var s, j := LineSource(st, PrintedLines(st)[i]);
    if j < 0 {
      HeaderAssignsNothing(s.name, a);
      assert false;
    } else {
      g := s.entries[j];
    }
  }

  /** If a store reads back then its entries survive: of those that do not, the
      heaviest could only have been assigned by its own line. */
  lemma {:induction false} ReadBackSurvives(st: Store, e: Entry)
    requires Parse([], Print(st)) == st && Holds(st, e)
    ensures Survives(e)
    decreases BUFFER - Weight(e)
  {
    ReadBackIsAssignable(st);
    LinesOfPrint(st);
    var g := AssigningEntry(st, Assign(e.name, e.value));
    EntryLineAssigns(g, Assign(e.name, e.value));
    if !Survives(g) { ReadBackSurvives(st, g); }
  }

  lemma WellFormedEmpty()
    ensures WellFormed([])
  {
  }

  lemma {:induction false} OnlySurvivorsReadBack(st: Store)
    requires Parse([], Print(st)) == st
    ensures WellFormed(st) && forall s :: s in st ==> PrintableSection(s)
  {
    WellFormedEmpty();
    ReadKeepsWellFormed(Reader([], ""), Lines(Print(st)));
    ReadBackIsAssignable(st);
    forall s, e | s in st && e in s.entries ensures Survives(e) {
      assert Holds(st, e);
      ReadBackSurvives(st, e);
    }
  }

  lemma {:induction false} SurvivorsReadBack(st: Store)
    requires WellFormed(st) && forall s :: s in st ==> PrintableSection(s) && s.entries != []
    ensures Parse([], Print(st)) == st
  {
    LinesOfPrint(st);
    LinesReadBack(st);
  }

  lemma {:induction false} PrintableNonEmpty(st: Store)
    ensures Printable(st) <==> forall s :: s in NonEmpty(st) ==> PrintableSection(s)
    ensures forall s :: s in NonEmpty(st) ==> s.entries != []
  {
    forall s ensures s in NonEmpty(st) <==> s in st && s.entries != [] { NonEmptyHas(st, s); }
  }

  /** Printing any store and parsing the text into a fresh one gives the same
      sections, names, values and order, without the sections that have no values,
      exactly when the names are unique and the printed ones survive. */
  lemma {:induction false} PrintThenParse(st: Store)
    ensures Parse([], Print(st)) == NonEmpty(st) <==> WellFormed(NonEmpty(st)) && Printable(st)
  {
    PrintsNonEmpty(st);
    PrintableNonEmpty(st);
    if WellFormed(NonEmpty(st)) && Printable(st) { SurvivorsReadBack(NonEmpty(st)); }
    if Parse([], Print(NonEmpty(st))) == NonEmpty(st) { OnlySurvivorsReadBack(NonEmpty(st)); }
  }

  /** `write_file` followed by `read_file` into a new object. */
  method SaveAndLoad(ini: IniFile) returns (copy: IniFile)
    requires ini.Aligned()
    ensures copy.Aligned()
    ensures copy.Abs() == NonEmpty(ini.Abs()) <==> WellFormed(NonEmpty(ini.Abs())) && Printable(ini.Abs())
  {
    var text := ini.WriteFile();
    copy := new IniFile();
    ghost var st := ini.Abs();
    var _ := copy.ReadFile(Some(text));
    PrintThenParse(st);
  }
}
