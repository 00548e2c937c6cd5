/**
 Loading hosts files into the block list (`updater.go`): reading the entry of a line, and adding
 it unless the list already matches its text or the whitelist names it.
 */
module HostFile {
  import opened Text
  import opened BlockList
  import G = Glob

  // -------- white space, `strings.Split(_, "#")[0]`, `strings.TrimSpace`, `strings.Fields` --------

  /** Unicode white space. */
  predicate IsSpace(c: char) {
    || '\U{0009}' <= c <= '\U{000D}' || c == ' ' || c == '\U{0085}' || c == '\U{00A0}' || c == '\U{1680}'
    || '\U{2000}' <= c <= '\U{200A}' || c == '\U{2028}' || c == '\U{2029}' || c == '\U{202F}' || c == '\U{205F}'
    || c == '\U{3000}'
  }

  predicate AllSpace(s: string) {
    forall i :: 0 <= i < |s| ==> IsSpace(s[i])
  }

  /** A host or address field: some text without white space or comment mark. */
  predicate IsField(s: string) {
    s != "" && forall i :: 0 <= i < |s| ==> !IsSpace(s[i]) && s[i] != '#'
  }

  function BeforeComment(s: string): string {
    if s == "" || s[0] == '#' then "" else [s[0]] + BeforeComment(s[1..])
  }

  function TrimLeft(s: string): string {
    if s != "" && IsSpace(s[0]) then TrimLeft(s[1..]) else s
  }

  function TrimRight(s: string): string {
    if s != "" && IsSpace(s[|s| - 1]) then TrimRight(s[..|s| - 1]) else s
  }

  function TrimSpace(s: string): string {
    TrimRight(TrimLeft(s))
  }

  /** The leading run of non-space characters. */
  function Word(s: string): (w: string)
    ensures w <= s
    ensures forall i :: 0 <= i < |w| ==> !IsSpace(w[i])
    ensures |w| < |s| ==> IsSpace(s[|w|])
  {
    if s == "" || IsSpace(s[0]) then "" else [s[0]] + Word(s[1..])
  }

  function Fields(s: string): seq<string>
    decreases |s|
  {
    if s == "" then []
    else if IsSpace(s[0]) then Fields(s[1..])
    else [Word(s)] + Fields(s[|Word(s)|..])
  }

  /** The entry of one line of a hosts file, if it has one. */
  function LineEntry(line: string): Option<string> {
    var text := TrimSpace(BeforeComment(line));
    if |text| > 0 then
      var fields := Fields(text);
      if |fields| > 1 then Some(fields[1])
      else if |fields| == 1 then Some(fields[0])
      else None
    else None
  }

  // -------- line parsing undoes line printing --------

  lemma {:induction false} BeforeCommentOf(s: string, comment: string)
    requires '#' !in s
    ensures BeforeComment(s) == s && BeforeComment(s + "#" + comment) == s
  {
    if s == "" {
      assert s + "#" + comment == "#" + comment;
    } else {
      assert (s + "#" + comment)[1..] == s[1..] + "#" + comment;
      BeforeCommentOf(s[1..], comment);
    }
  }

  lemma {:induction false} FieldsSkipSpace(pre: string, s: string)
    requires AllSpace(pre)
    ensures Fields(pre + s) == Fields(s)
  {
    if pre == "" {
      assert pre + s == s;
    } else {
      assert (pre + s)[1..] == pre[1..] + s;
      FieldsSkipSpace(pre[1..], s);
    }
  }

  lemma {:induction false} WordOf(w: string, rest: string)
    requires forall i :: 0 <= i < |w| ==> !IsSpace(w[i])
    requires rest != "" ==> IsSpace(rest[0])
    ensures Word(w + rest) == w
  {
    if w == "" {
      assert w + rest == rest;
    } else {
      assert (w + rest)[1..] == w[1..] + rest;
      WordOf(w[1..], rest);
    }
  }

  lemma FieldsCons(w: string, rest: string)
    requires IsField(w)
    requires rest != "" ==> IsSpace(rest[0])
    ensures Fields(w + rest) == [w] + Fields(rest)
  {
    WordOf(w, rest);
    assert (w + rest)[|w|..] == rest;
  }

  lemma {:induction false} FieldsOfTrimLeft(s: string)
    ensures Fields(TrimLeft(s)) == Fields(s)
  {
    if s != "" && IsSpace(s[0]) {
      FieldsOfTrimLeft(s[1..]);
    }
  }

  lemma {:induction false} FieldsDropLastSpace(s: string, c: char)
    requires IsSpace(c)
    ensures Fields(s + [c]) == Fields(s)
    decreases |s|
  {
    if s == "" {
      assert s + [c] == [c] && [c][1..] == "";
    } else if IsSpace(s[0]) {
      assert (s + [c])[1..] == s[1..] + [c];
      FieldsDropLastSpace(s[1..], c);
    } else {
      var w := Word(s);
      assert s == w + s[|w|..];
      assert s + [c] == w + (s[|w|..] + [c]);
      WordOf(w, s[|w|..] + [c]);
      assert (s + [c])[|w|..] == s[|w|..] + [c];
      FieldsDropLastSpace(s[|w|..], c);
    }
  }

  lemma {:induction false} FieldsOfTrimRight(s: string)
    ensures Fields(TrimRight(s)) == Fields(s)
  {
    if s != "" && IsSpace(s[|s| - 1]) {
      assert s == s[..|s| - 1] + [s[|s| - 1]];
      FieldsDropLastSpace(s[..|s| - 1], s[|s| - 1]);
      FieldsOfTrimRight(s[..|s| - 1]);
    }
  }

  lemma {:induction false} NoFieldsIffAllSpace(s: string)
    ensures Fields(s) == [] <==> AllSpace(s)
  {
    if s != "" && IsSpace(s[0]) {
      NoFieldsIffAllSpace(s[1..]);
      assert s == [s[0]] + s[1..];
    }
  }

  /** Trimming changes nothing but what an all-blank text looks like. */
  lemma LineEntryByFields(line: string)
    ensures var fields := Fields(BeforeComment(line));
            LineEntry(line) == if |fields| > 1 then Some(fields[1])
                               else if |fields| == 1 then Some(fields[0])
                               else None
  {
    var s := BeforeComment(line);
    FieldsOfTrimLeft(s);
    FieldsOfTrimRight(TrimLeft(s));
  }

  datatype Address = NoAddress | Address(field: string, gap: string)

  /** Lines a hosts file may hold for a host: white space, perhaps an address, the host, a tail, perhaps a comment. */
  datatype HostLine = HostLine(indent: string, address: Address, host: string, tail: string, comment: Option<string>) {

    /** After an address, anything set off by white space may follow the host; without one, only white space may. */
    predicate Valid() {
      && AllSpace(indent)
      && IsField(host)
      && '#' !in tail
      && match address {
        case NoAddress => AllSpace(tail)
        case Address(field, gap) => IsField(field) && gap != "" && AllSpace(gap) && (tail != "" ==> IsSpace(tail[0]))
      }
    }

    function Body(): string {
      indent + (match address case NoAddress => "" case Address(field, gap) => field + gap) + host + tail
    }

    function Print(): string {
      match comment
      case None => Body()
      case Some(text) => Body() + "#" + text
    }
  }

  lemma SpacesAndFieldsHaveNoMark(s: string)
    requires AllSpace(s) || IsField(s)
    ensures '#' !in s
  {
  }

  /** What stands before the comment is what was printed before it. */
  lemma BodyBeforeComment(l: HostLine)
    requires l.Valid()
    ensures BeforeComment(l.Print()) == l.Body()
  {
    SpacesAndFieldsHaveNoMark(l.indent);
    SpacesAndFieldsHaveNoMark(l.host);
    if l.address.Address? {
      SpacesAndFieldsHaveNoMark(l.address.field);
      SpacesAndFieldsHaveNoMark(l.address.gap);
    }
    BeforeCommentOf(l.Body(), if l.comment.Some? then l.comment.value else "");
  }

  lemma FieldsOfPlainBody(indent: string, host: string, tail: string)
    requires AllSpace(indent) && IsField(host) && (tail != "" ==> IsSpace(tail[0]))
    ensures Fields(indent + host + tail) == [host] + Fields(tail)
  {
    FieldsCons(host, tail);
    FieldsSkipSpace(indent, host + tail);
    assert indent + host + tail == indent + (host + tail);
  }

  lemma BodyFields(l: HostLine)
    requires l.Valid()
    ensures Fields(l.Body()) ==
            (if l.address.NoAddress? then [] else [l.address.field]) + [l.host] + Fields(l.tail)
  {
    match l.address {
      case NoAddress =>
        assert l.Body() == l.indent + l.host + l.tail;
        FieldsOfPlainBody(l.indent, l.host, l.tail);
      case Address(field, gap) =>
        var rest := gap + l.host + l.tail;
        assert l.Body() == l.indent + field + rest;
        FieldsOfPlainBody(l.indent, field, rest);
        FieldsOfPlainBody(gap, l.host, l.tail);
    }
  }

  /** Reading a printed line gives back exactly the host. */
  lemma LineRoundTrip(l: HostLine)
    requires l.Valid()
    ensures LineEntry(l.Print()) == Some(l.host)
  {
    BodyBeforeComment(l);
    BodyFields(l);
    NoFieldsIffAllSpace(l.tail);
    LineEntryByFields(l.Print());
  }

  /** Visible ASCII, the comment mark aside. */
  predicate IsVisible(s: string) {
    s != "" && forall i :: 0 <= i < |s| ==> '!' <= s[i] <= '~' && s[i] != '#'
  }

  predicate IsBlank(s: string) {
    forall i :: 0 <= i < |s| ==> s[i] == ' ' || s[i] == '\t'
  }

  /** An address and a host set apart by tabs or blanks, whatever blanks and comment surround them. */
  lemma BlankSeparatedLine(before: string, address: string, gap: string, host: string, after: string, comment: string)
    requires IsVisible(address) && IsVisible(host) && gap != "" && IsBlank(before) && IsBlank(gap) && IsBlank(after)
    ensures LineEntry(before + address + gap + host + after + "#" + comment) == Some(host)
  {
    BlanksAreSpace(before);
    BlanksAreSpace(gap);
    BlanksAreSpace(after);
    SpacesAndFieldsHaveNoMark(after);
    var line := HostLine(before, Address(address, gap), host, after, Some(comment));
    LineRoundTrip(line);
    assert line.Body() == before + address + gap + host + after;
  }

  /** A host alone. */
  lemma BlankSurroundedHost(before: string, host: string, after: string)
    requires IsVisible(host) && IsBlank(before) && IsBlank(after)
    ensures LineEntry(before + host + after) == Some(host)
  {
    BlanksAreSpace(before);
    BlanksAreSpace(after);
    SpacesAndFieldsHaveNoMark(after);
    var line := HostLine(before, NoAddress, host, after, None);
    LineRoundTrip(line);
    assert line.Print() == before + host + after;
  }

  lemma BlanksAreSpace(s: string)
    requires IsBlank(s)
    ensures AllSpace(s)
  {
  }

  /** A line has no entry exactly when only white space stands before its comment. */
  lemma NoEntryIffBlank(line: string)
    ensures LineEntry(line).None? <==> AllSpace(BeforeComment(line))
  {
    LineEntryByFields(line);
    NoFieldsIffAllSpace(BeforeComment(line));
  }

  // -------- loading --------

  ghost function LoadEntry(lib: RegexLibrary, white: set<string>, t: Table, entry: string): Table {
    if !Blocks(lib, t, entry) && entry !in white then Put(lib, t, entry, true) else t
  }

  ghost function LoadLine(lib: RegexLibrary, white: set<string>, t: Table, line: string): Table {
    match LineEntry(line)
    case None => t
    case Some(entry) => LoadEntry(lib, white, t, entry)
  }

  ghost function LoadLines(lib: RegexLibrary, white: set<string>, t: Table, lines: seq<string>): Table {
    if lines == [] then t
    else LoadLine(lib, white, LoadLines(lib, white, t, lines[..|lines| - 1]), lines[|lines| - 1])
  }

  ghost function SetAll(lib: RegexLibrary, t: Table, keys: seq<string>): Table {
    if keys == [] then t
    else Put(lib, SetAll(lib, t, keys[..|keys| - 1]), keys[|keys| - 1], true)
  }

  /** The loader, with the whitelist it keeps for the life of the process. */
  class Updater {
    var whitelist: set<string>

    constructor ()
      ensures whitelist == {}
    {
      whitelist := {};
    }

    /** The parts of `update` that touch the whitelist and the block list. */
    method Update(cache: MemoryBlockCache, wlist: seq<string>, blist: seq<string>)
      modifies this, cache
      ensures whitelist == old(whitelist) + (set w | w in wlist)
      ensures cache.Contents() == SetAll(cache.lib, old(cache.Contents()), blist)
    {
      for i := 0 to |wlist|
        invariant whitelist == old(whitelist) + (set w | w in wlist[..i])
        invariant cache.Contents() == old(cache.Contents())
      {
        assert wlist[..i + 1] == wlist[..i] + [wlist[i]];
        whitelist := whitelist + {wlist[i]};
      }
      assert wlist[..|wlist|] == wlist;
      for i := 0 to |blist|
        invariant whitelist == old(whitelist) + (set w | w in wlist)
        invariant cache.Contents() == SetAll(cache.lib, old(cache.Contents()), blist[..i])
      {
        assert blist[..i + 1][..i] == blist[..i];
        cache.Set(blist[i], true);
      }
      assert blist[..|blist|] == blist;
    }

    method ParseHostFile(lines: seq<string>, cache: MemoryBlockCache)
      modifies cache
      ensures cache.Contents() == LoadLines(cache.lib, whitelist, old(cache.Contents()), lines)
    {
      for i := 0 to |lines|
        invariant cache.Contents() == LoadLines(cache.lib, whitelist, old(cache.Contents()), lines[..i])
        invariant whitelist == old(whitelist)
      {
        assert lines[..i + 1][..i] == lines[..i];
        var line := TrimSpace(BeforeComment(lines[i]));
        LineEntryByFields(lines[i]);
        NoEntryIffBlank(lines[i]);
        if |line| > 0 {
          var fields := Fields(line);
          FieldsOfTrimLeft(BeforeComment(lines[i]));
          FieldsOfTrimRight(TrimLeft(BeforeComment(lines[i])));
          TrimmedHasField(BeforeComment(lines[i]));
          if |fields| > 1 {
            line := fields[1];
          } else {
            line := fields[0];
          }
          var known := cache.Exists(line);
          if !known && line !in whitelist {
            cache.Set(line, true);
          }
        }
      }
      assert lines[..|lines|] == lines;
    }
  }

  lemma {:induction false} TrimRightEnds(s: string)
    ensures TrimRight(s) != "" ==> !IsSpace(TrimRight(s)[|TrimRight(s)| - 1])
  {
    if s != "" && IsSpace(s[|s| - 1]) {
      TrimRightEnds(s[..|s| - 1]);
    }
  }

  /** A trimmed text that is not empty has a field, so `fields[0]` is never out of range. */
  lemma TrimmedHasField(s: string)
    ensures TrimSpace(s) != "" ==> Fields(TrimSpace(s)) != []
  {
    TrimRightEnds(TrimLeft(s));
    NoFieldsIffAllSpace(TrimSpace(s));
  }

  // -------- the shortcut preserves meaning --------

  /** A plain or glob entry as a pattern: what it would block if it were added. */
  predicate EntryCovers(entry: string, name: string) {
    G.Matches(Lower(entry), Lower(name))
  }

  /** If the text of a starred entry is matched by a regular expression of the table, some glob matches it too. */
  ghost predicate NotHidden(lib: RegexLibrary, t: Table, entry: string) {
    forall k :: k in t.special && t.special[k].Some? && '*' in entry && lib.matches(t.special[k].value, Lower(entry))
                ==> GlobMatches(t, Lower(entry))
  }

  ghost predicate GlobMatches(t: Table, text: string) {
    exists k :: k in t.special && t.special[k].None? && G.Matches(k, text)
  }

  /** Adding an entry blocks what it covers, and nothing else. */
  lemma PutBlocks(lib: RegexLibrary, t: Table, key: string, name: string)
    requires WellFormed(t)
    ensures WellFormed(Put(lib, t, key, true))
    ensures Blocks(lib, Put(lib, t, key, true), name)
            <==> Blocks(lib, t, name) || (TakesEffect(lib, Op.Set(key, true)) && Covers(lib, key, name))
  {
    var t' := Put(lib, t, key, true);
    var e := Canonical(key);
    CanonicalIdempotent(key);
    if KindOf(key) != Plain && TakesEffect(lib, Op.Set(key, true)) {
      assert e in t'.special && (RuleMatches(lib, e, t'.special[e], Lower(name)) <==> Covers(lib, key, name));
    }
    if k :| k in t.special && RuleMatches(lib, k, t.special[k], Lower(name)) {
      assert k in t'.special && t'.special[k] == t.special[k];
    }
  }

  /** A plain or glob entry means its pattern. */
  lemma CoversIsPattern(lib: RegexLibrary, entry: string, name: string)
    requires KindOf(entry) != Regex
    ensures Covers(lib, entry, name) <==> EntryCovers(entry, name)
  {
    LowerKeepsMark(entry, '*');
    if KindOf(entry) == Plain {
      G.LiteralMatchesItself(Lower(entry), Lower(name));
    }
  }

  /** If the text of an entry is blocked, so is every name the entry covers. */
  lemma BlockedTextIsCovered(lib: RegexLibrary, t: Table, entry: string, name: string)
    requires WellFormed(t) && NotHidden(lib, t, entry)
    requires Blocks(lib, t, entry) && EntryCovers(entry, name)
    ensures Blocks(lib, t, name)
  {
    LowerKeepsMark(entry, '*');
    if '*' !in entry {
      G.LiteralMatchesItself(Lower(entry), Lower(name));
    } else {
      assert Lower(entry) in t.backend ==> KindOf(Lower(entry)) == Plain;
      var k :| k in t.special && RuleMatches(lib, k, t.special[k], Lower(entry));
      assert GlobMatches(t, Lower(entry));
      var g :| g in t.special && t.special[g].None? && G.Matches(g, Lower(entry));
      G.MatchesTransitive(g, Lower(entry), Lower(name));
      assert RuleMatches(lib, g, t.special[g], Lower(name));
    }
  }

  // -------- what is lost, exactly --------

  /** Some regular expression of the table matches the text. */
  ghost predicate RegexMatches(lib: RegexLibrary, t: Table, text: string) {
    exists k :: k in t.special && t.special[k].Some? && lib.matches(t.special[k].value, text)
  }

  /** The loader passes over the entry although nothing in the table need cover what it covers. */
  ghost predicate Hidden(lib: RegexLibrary, t: Table, entry: string) {
    if KindOf(entry) == Regex then Blocks(lib, t, entry) else RegexMatches(lib, t, Lower(entry))
  }

  /** The entry is effective, not whitelisted, not hidden, and covers the name. */
  ghost predicate Adds(lib: RegexLibrary, white: set<string>, t: Table, entry: string, name: string) {
    && entry !in white && TakesEffect(lib, Op.Set(entry, true))
    && Covers(lib, entry, name) && !Hidden(lib, t, entry)
  }

  /** One entry of any kind: the names it adds are those it covers, unless it is hidden. */
  lemma LoadEntryExact(lib: RegexLibrary, white: set<string>, t: Table, entry: string, name: string)
    requires WellFormed(t)
    ensures WellFormed(LoadEntry(lib, white, t, entry))
    ensures Blocks(lib, LoadEntry(lib, white, t, entry), name)
            <==> Blocks(lib, t, name) || Adds(lib, white, t, entry, name)
  {
    PutBlocks(lib, t, entry, name);
    if RegexMatches(lib, t, Lower(entry)) {
      var k :| k in t.special && t.special[k].Some? && lib.matches(t.special[k].value, Lower(entry));
      assert RuleMatches(lib, k, t.special[k], Lower(entry));
    }
    if KindOf(entry) != Regex && Blocks(lib, t, entry) && Covers(lib, entry, name) && !Hidden(lib, t, entry) {
      CoversIsPattern(lib, entry, name);
      BlockedTextIsCovered(lib, t, entry, name);
    }
  }

  /** A name that an entry covers is lost exactly when the entry's text is blocked and the name is not; then the text is hidden. */
  lemma EntryLostIff(lib: RegexLibrary, white: set<string>, t: Table, entry: string, name: string)
    requires WellFormed(t) && KindOf(entry) != Regex && entry !in white && EntryCovers(entry, name)
    ensures !Blocks(lib, LoadEntry(lib, white, t, entry), name) <==> Blocks(lib, t, entry) && !Blocks(lib, t, name)
    ensures Blocks(lib, t, entry) && !Blocks(lib, t, name) ==> !NotHidden(lib, t, entry)
  {
    PutBlocks(lib, t, entry, name);
    CoversIsPattern(lib, entry, name);
    if Blocks(lib, t, entry) && NotHidden(lib, t, entry) {
      BlockedTextIsCovered(lib, t, entry, name);
    }
  }

  /** Line i adds the name to what the table holds when the line is read. */
  ghost predicate LineAdds(lib: RegexLibrary, white: set<string>, t: Table, lines: seq<string>, i: nat, name: string)
    requires i < |lines|
  {
    LineEntry(lines[i]).Some? && Adds(lib, white, LoadLines(lib, white, t, lines[..i]), LineEntry(lines[i]).value, name)
  }

  ghost predicate SomeLineAdds(lib: RegexLibrary, white: set<string>, t: Table, lines: seq<string>, name: string) {
    exists i :: 0 <= i < |lines| && LineAdds(lib, white, t, lines, i, name)
  }

  lemma EarlierLineAdds(lib: RegexLibrary, white: set<string>, t: Table, lines: seq<string>, init: seq<string>, i: nat, name: string)
    requires init <= lines && i < |init|
    ensures LineAdds(lib, white, t, init, i, name) <==> LineAdds(lib, white, t, lines, i, name)
  {
    assert init[..i] == lines[..i];
  }

  lemma LastLineAdds(lib: RegexLibrary, white: set<string>, t: Table, lines: seq<string>, init: seq<string>, name: string)
    requires lines != [] && init == lines[..|lines| - 1]
    ensures SomeLineAdds(lib, white, t, lines, name)
            <==> SomeLineAdds(lib, white, t, init, name) || LineAdds(lib, white, t, lines, |lines| - 1, name)
  {
    forall i | 0 <= i < |init| ensures LineAdds(lib, white, t, init, i, name) <==> LineAdds(lib, white, t, lines, i, name) {
      EarlierLineAdds(lib, white, t, lines, init, i, name);
    }
  }

  /**
   Any file, regular expressions included: a name is blocked afterwards exactly when it was before, or
   some line covers it whose text was not hidden by the table that the lines before it left.
   */
  lemma {:induction false} LoadExact(lib: RegexLibrary, white: set<string>, t: Table, lines: seq<string>, name: string)
    requires WellFormed(t)
    ensures WellFormed(LoadLines(lib, white, t, lines))
    ensures Blocks(lib, LoadLines(lib, white, t, lines), name)
            <==> Blocks(lib, t, name) || SomeLineAdds(lib, white, t, lines, name)
  {
    if lines != [] {
      var init := lines[..|lines| - 1];
      var e := LineEntry(lines[|lines| - 1]);
      LoadExact(lib, white, t, init, name);
      LastLineAdds(lib, white, t, lines, init, name);
      if e.Some? {
        LoadEntryExact(lib, white, LoadLines(lib, white, t, init), e.value, name);
      }
    }
  }

  /** No line holds a regular expression. */
  predicate RegexFree(lines: seq<string>) {
    forall i :: 0 <= i < |lines| && LineEntry(lines[i]).Some? ==> KindOf(LineEntry(lines[i]).value) != Regex
  }

  /** A file without regular expressions leaves those of the table as they are. */
  lemma {:induction false} RegexesStay(lib: RegexLibrary, white: set<string>, t: Table, lines: seq<string>, text: string)
    requires WellFormed(t) && RegexFree(lines)
    ensures RegexMatches(lib, LoadLines(lib, white, t, lines), text) <==> RegexMatches(lib, t, text)
  {
    if lines != [] {
      var n := |lines| - 1;
      RegexesStay(lib, white, t, lines[..n], text);
      LoadExact(lib, white, t, lines[..n], "");
      var t1 := LoadLines(lib, white, t, lines[..n]);
      var e := LineEntry(lines[n]);
      if e.Some? {
        OtherKindsKeepRegexes(lib, t1, e.value, text);
      }
    }
  }

  lemma OtherKindsKeepRegexes(lib: RegexLibrary, t: Table, entry: string, text: string)
    requires WellFormed(t) && KindOf(entry) != Regex
    ensures RegexMatches(lib, Put(lib, t, entry, true), text) <==> RegexMatches(lib, t, text)
  {
    var t' := Put(lib, t, entry, true);
    assert KindOf(Canonical(entry)) == KindOf(entry);
    assert forall k :: k in t'.special && t'.special[k].Some? <==> k in t.special && t.special[k].Some?;
    assert forall k :: k in t.special && t.special[k].Some? ==> k in t'.special && t'.special[k] == t.special[k];
  }

  ghost predicate LineCovers(white: set<string>, line: string, name: string) {
    LineEntry(line).Some? && LineEntry(line).value !in white && EntryCovers(LineEntry(line).value, name)
  }

  /** The line covers the name, is not whitelisted, and no regular expression of the table matches its text. */
  ghost predicate LineReaches(lib: RegexLibrary, white: set<string>, t: Table, line: string, name: string) {
    LineCovers(white, line, name) && !RegexMatches(lib, t, Lower(LineEntry(line).value))
  }

  /**
   A file of names and globs: a name is blocked afterwards exactly when it was before, or a line covers
   it whose text no regular expression of the table before the file matches.
   */
  lemma FileExact(lib: RegexLibrary, white: set<string>, t: Table, lines: seq<string>, name: string)
    requires WellFormed(t) && RegexFree(lines)
    ensures Blocks(lib, LoadLines(lib, white, t, lines), name)
            <==> Blocks(lib, t, name) || exists line :: line in lines && LineReaches(lib, white, t, line, name)
  {
    LoadExact(lib, white, t, lines, name);
    forall i | 0 <= i < |lines|
      ensures LineAdds(lib, white, t, lines, i, name) <==> LineReaches(lib, white, t, lines[i], name)
    {
      var e := LineEntry(lines[i]);
      if e.Some? {
        RegexesStay(lib, white, t, lines[..i], Lower(e.value));
        CoversIsPattern(lib, e.value, name);
      }
    }
    if line :| line in lines && LineReaches(lib, white, t, line, name) {
      var i :| 0 <= i < |lines| && lines[i] == line;
      assert LineAdds(lib, white, t, lines, i, name);
    }
  }

  /** The lines that the loader loses nothing of. */
  ghost predicate Loadable(lib: RegexLibrary, t: Table, lines: seq<string>) {
    RegexFree(lines) && forall i :: 0 <= i < |lines| && LineEntry(lines[i]).Some? ==> NotHidden(lib, t, LineEntry(lines[i]).value)
  }

  ghost predicate SomeLineCovers(white: set<string>, lines: seq<string>, name: string) {
    exists i :: 0 <= i < |lines| && LineCovers(white, lines[i], name)
  }

  /**
   The loader's shortcut preserves meaning where no text is hidden: after such lines, in any order, the
   blocked names are those blocked before and those covered by the entry of some line not whitelisted.
   */
  lemma LoadMeaning(lib: RegexLibrary, white: set<string>, t: Table, lines: seq<string>, name: string)
    requires WellFormed(t) && Loadable(lib, t, lines)
    ensures Blocks(lib, LoadLines(lib, white, t, lines), name)
            <==> Blocks(lib, t, name) || SomeLineCovers(white, lines, name)
  {
    FileExact(lib, white, t, lines, name);
    forall i | 0 <= i < |lines| && LineCovers(white, lines[i], name)
      ensures Blocks(lib, t, name) || LineReaches(lib, white, t, lines[i], name)
    {
      var entry := LineEntry(lines[i]).value;
      if k :| k in t.special && t.special[k].Some? && lib.matches(t.special[k].value, Lower(entry)) {
        assert RuleMatches(lib, k, t.special[k], Lower(entry));
        BlockedTextIsCovered(lib, t, entry, name);
      }
    }
  }

  /** The order of the names and globs in a file does not matter, whatever the table holds before. */
  lemma LoadOrderIrrelevant(lib: RegexLibrary, white: set<string>, t: Table, a: seq<string>, b: seq<string>, name: string)
    requires WellFormed(t) && RegexFree(a)
    requires forall line :: line in a <==> line in b
    ensures Blocks(lib, LoadLines(lib, white, t, a), name) <==> Blocks(lib, LoadLines(lib, white, t, b), name)
  {
    assert forall i :: 0 <= i < |b| ==> b[i] in a;
    FileExact(lib, white, t, a, name);
    FileExact(lib, white, t, b, name);
  }

  lemma {:induction false} SetAllMeaning(lib: RegexLibrary, t: Table, keys: seq<string>, name: string)
    requires WellFormed(t)
    ensures WellFormed(SetAll(lib, t, keys))
    ensures Blocks(lib, SetAll(lib, t, keys), name)
            <==> Blocks(lib, t, name)
                 || exists k :: k in keys && TakesEffect(lib, Op.Set(k, true)) && Covers(lib, k, name)
  {
    if keys != [] {
      var n := |keys| - 1;
      SetAllMeaning(lib, t, keys[..n], name);
      PutBlocks(lib, SetAll(lib, t, keys[..n]), keys[n], name);
      assert keys == keys[..n] + [keys[n]];
    }
  }

  /**
   A whole update, from an empty list: the configured entries first, then the files. A name ends up
   blocked exactly when a configured entry covers it or the entry of a line not whitelisted does.
   */
  lemma UpdateMeaning(lib: RegexLibrary, white: set<string>, blist: seq<string>, lines: seq<string>, name: string)
    requires Loadable(lib, SetAll(lib, EMPTY, blist), lines)
    ensures Blocks(lib, LoadLines(lib, white, SetAll(lib, EMPTY, blist), lines), name)
            <==> || (exists k :: k in blist && TakesEffect(lib, Op.Set(k, true)) && Covers(lib, k, name))
                 || SomeLineCovers(white, lines, name)
  {
    SetAllMeaning(lib, EMPTY, blist, name);
    LoadMeaning(lib, white, SetAll(lib, EMPTY, blist), lines, name);
  }

  /** The regular expressions of a list built from configured entries are the configured ones that compile. */
  lemma {:induction false} ConfiguredRegexes(lib: RegexLibrary, keys: seq<string>, name: string)
    ensures RegexMatches(lib, SetAll(lib, EMPTY, keys), Lower(name))
            <==> exists k :: k in keys && ConfiguredRegex(lib, k, name)
  {
    if keys != [] {
      var n := |keys| - 1;
      var t := SetAll(lib, EMPTY, keys[..n]);
      ConfiguredRegexes(lib, keys[..n], name);
      SetAllMeaning(lib, EMPTY, keys[..n], name);
      assert keys == keys[..n] + [keys[n]];
      if KindOf(keys[n]) != Regex {
        OtherKindsKeepRegexes(lib, t, keys[n], Lower(name));
      } else {
        PutRegex(lib, t, keys[n], name);
      }
    }
  }

  predicate ConfiguredRegex(lib: RegexLibrary, key: string, name: string) {
    KindOf(key) == Regex && TakesEffect(lib, Op.Set(key, true)) && Covers(lib, key, name)
  }

  lemma PutRegex(lib: RegexLibrary, t: Table, key: string, name: string)
    requires WellFormed(t) && KindOf(key) == Regex
    ensures RegexMatches(lib, Put(lib, t, key, true), Lower(name))
            <==> RegexMatches(lib, t, Lower(name)) || ConfiguredRegex(lib, key, name)
  {
    var t' := Put(lib, t, key, true);
    if ConfiguredRegex(lib, key, name) {
      assert key in t'.special && t'.special[key].Some?;
    }
    if k :| k in t.special && t.special[k].Some? && lib.matches(t.special[k].value, Lower(name)) {
      assert k in t'.special && t'.special[k] == t.special[k];
    }
  }

  /** The line covers the name, is not whitelisted, and no configured regular expression matches its text. */
  ghost predicate LineCounts(lib: RegexLibrary, white: set<string>, blist: seq<string>, line: string, name: string) {
    LineCovers(white, line, name) && !exists k :: k in blist && ConfiguredRegex(lib, k, LineEntry(line).value)
  }

  /**
   A whole update over files of names and globs, in terms of the texts alone: a name is blocked exactly
   when a configured entry covers it, or a line does whose text no configured regular expression matches.
   */
  lemma UpdateExact(lib: RegexLibrary, white: set<string>, blist: seq<string>, lines: seq<string>, name: string)
    requires RegexFree(lines)
    ensures Blocks(lib, LoadLines(lib, white, SetAll(lib, EMPTY, blist), lines), name)
            <==> || (exists k :: k in blist && TakesEffect(lib, Op.Set(k, true)) && Covers(lib, k, name))
                 || (exists line :: line in lines && LineCounts(lib, white, blist, line, name))
  {
    var t := SetAll(lib, EMPTY, blist);
    SetAllMeaning(lib, EMPTY, blist, name);
    FileExact(lib, white, t, lines, name);
    forall line ensures LineReaches(lib, white, t, line, name) <==> LineCounts(lib, white, blist, line, name) {
      if LineEntry(line).Some? {
        ConfiguredRegexes(lib, blist, LineEntry(line).value);
      }
    }
  }

  /**
   With any library, an expression that matches the text of a starred entry but not a name the entry
   covers (`^[*]`, say) makes the loader pass over the entry, and the name stays unblocked. Read in the
   other order, the two entries block it.
   */
  lemma RegexMayHideALine(lib: RegexLibrary, white: set<string>, src: string, entry: string, name: string)
    requires lib.compiles(src) && lib.matches(src, Lower(entry)) && !lib.matches(src, Lower(name))
    requires KindOf(entry) != Regex && EntryCovers(entry, name) && entry !in white && "~" + src !in white
    ensures !Blocks(lib, LoadEntry(lib, white, LoadEntry(lib, white, EMPTY, "~" + src), entry), name)
    ensures Blocks(lib, LoadEntry(lib, white, LoadEntry(lib, white, EMPTY, entry), "~" + src), name)
  {
    var regex := "~" + src;
    assert regex[1..] == src && "~" <= regex;
    var t := LoadEntry(lib, white, EMPTY, regex);
    assert t.special == map[regex := Some(src)] && t.backend == map[];
    assert RuleMatches(lib, regex, t.special[regex], Lower(entry));
    assert LoadEntry(lib, white, t, entry) == t;
    EntryLostIff(lib, white, EMPTY, entry, name);
    LoadEntryExact(lib, white, EMPTY, entry, name);
    LoadEntryExact(lib, white, LoadEntry(lib, white, EMPTY, entry), regex, name);
  }

  /** Matching the text is not enough to hide a line: an expression that matches everything loses no name. */
  lemma UniversalRegexHidesNothing(lib: RegexLibrary, white: set<string>, src: string, entry: string, name: string)
    requires lib.compiles(src) && (forall text :: lib.matches(src, text)) && '*' in entry
    ensures var t := Put(lib, EMPTY, "~" + src, true);
            && !NotHidden(lib, t, entry)
            && Blocks(lib, LoadEntry(lib, white, t, entry), name)
  {
    var regex := "~" + src;
    assert regex[1..] == src && "~" <= regex;
    var t := Put(lib, EMPTY, regex, true);
    assert t.special == map[regex := Some(src)];
    assert RuleMatches(lib, regex, t.special[regex], Lower(entry)) && RuleMatches(lib, regex, t.special[regex], Lower(name));
  }
}
