/**
 The block list (`cache.go`, `MemoryBlockCache`): a table of plain names and a table of special
 rules. A special rule is a regular expression (key starting with `~`) or a glob (key holding `*`
 or `?`); only the former carries a compiled matcher.
 */
module BlockList {
  import opened Text
  import G = Glob

  /** The regular expression library: which sources compile, and what a source matches. */
  datatype RegexLibrary = RegexLibrary(compiles: string -> bool, matches: (string, string) -> bool)

  datatype Kind = Regex | Glob | Plain

  function KindOf(key: string): Kind {
    if "~" <= key then Regex
    else if '*' in key || '?' in key then Glob
    else Plain
  }

  /** The key under which an entry is stored. */
  function Canonical(key: string): (c: string)
    ensures KindOf(c) == KindOf(key)
    ensures KindOf(key) != Regex ==> c == Lower(key)
  {
    if KindOf(key) == Regex then key
    else
      LowerKeepsMark(key, '*');
      LowerKeepsMark(key, '?');
      assert key != "" ==> Lower(key)[0] == LowerChar(key[0]);
      Lower(key)
  }

  /** The two tables; a `None` matcher is the nil pointer that marks a glob. */
  datatype Table = Table(backend: map<string, bool>, special: map<string, Option<string>>)

  const EMPTY := Table(map[], map[])

  /** What every table built by `Set` and `Remove` satisfies. */
  predicate WellFormed(t: Table) {
    && (forall k :: k in t.backend ==> KindOf(k) == Plain && Canonical(k) == k)
    && (forall k :: k in t.special ==> KindOf(k) != Plain && Canonical(k) == k)
    && (forall k :: k in t.special ==> t.special[k] == if KindOf(k) == Glob then None else Some(k[1..]))
  }

  function Put(lib: RegexLibrary, t: Table, key: string, value: bool): Table {
    match KindOf(key)
    case Regex => if lib.compiles(key[1..]) then t.(special := t.special[key := Some(key[1..])]) else t
    case Glob => t.(special := t.special[Lower(key) := None])
    case Plain => t.(backend := t.backend[Lower(key) := value])
  }

  function Drop(t: Table, key: string): Table {
    match KindOf(key)
    case Regex => t.(special := t.special - {key})
    case Glob => t.(special := t.special - {Lower(key)})
    case Plain => t.(backend := t.backend - {Lower(key)})
  }

  predicate RuleMatches(lib: RegexLibrary, key: string, matcher: Option<string>, name: string) {
    match matcher
    case None => G.Matches(key, name)
    case Some(source) => lib.matches(source, name)
  }

  /** What `Exists` decides: the name is listed, or some special rule matches it. */
  ghost predicate Blocks(lib: RegexLibrary, t: Table, name: string) {
    || Lower(name) in t.backend
    || exists k :: k in t.special && RuleMatches(lib, k, t.special[k], Lower(name))
  }

  function Lookup(t: Table, key: string): Option<bool> {
    match KindOf(key)
    case Plain => if Canonical(key) in t.backend then Some(t.backend[Canonical(key)]) else None
    case _ => if Canonical(key) in t.special then Some(true) else None
  }

  class MemoryBlockCache {
    const lib: RegexLibrary
    var backend: map<string, bool>
    var special: map<string, Option<string>>

    ghost function Contents(): Table
      reads this
    {
      Table(backend, special)
    }

    constructor (lib: RegexLibrary)
      ensures this.lib == lib && Contents() == EMPTY
    {
      this.lib := lib;
      backend, special := map[], map[];
    }

    method Get(key: string) returns (found: Option<bool>)
      ensures found == Lookup(Contents(), key)
    {
      if "~" <= key {
        found := if key in special then Some(true) else None;
      } else if '*' in key || '?' in key {
        var k := Lower(key);
        found := if k in special then Some(true) else None;
      } else {
        var k := Lower(key);
        found := if k in backend then Some(backend[k]) else None;
      }
    }

    method Remove(key: string)
      modifies this
      ensures Contents() == Drop(old(Contents()), key)
    {
      if "~" <= key {
        special := special - {key};
      } else if '*' in key || '?' in key {
        special := special - {Lower(key)};
      } else {
        backend := backend - {Lower(key)};
      }
    }

    method Set(key: string, value: bool)
      modifies this
      ensures Contents() == Put(lib, old(Contents()), key, value)
    {
      if "~" <= key {
        var ex := key[1..];
        if lib.compiles(ex) {
          special := special[key := Some(ex)];
        }
      } else if '*' in key || '?' in key {
        special := special[Lower(key) := None];
      } else {
        backend := backend[Lower(key) := value];
      }
    }

    /** Scans the special rules in whatever order the map yields them. */
    method Exists(key: string) returns (ok: bool)
      ensures ok <==> Blocks(lib, Contents(), key)
    {
      var name := Lower(key);
      ok := name in backend;
      if !ok {
        var left := special.Keys;
        while left != {}
          invariant left <= special.Keys
          invariant ok <==> exists k :: k in special && k !in left && RuleMatches(lib, k, special[k], name)
        {
          var data :| data in left;
          var hit: bool;
          match special[data] {
            case Some(source) => hit := lib.matches(source, name);
            case None => hit := G.Glob(data, name);
          }
          assert hit == RuleMatches(lib, data, special[data], name);
          ok := ok || hit;
          left := left - {data};
        }
      }
    }
  }

  // -------- histories --------

  datatype Op = Set(key: string, value: bool) | Remove(key: string)

  function Apply(lib: RegexLibrary, t: Table, op: Op): Table {
    match op
    case Set(key, value) => Put(lib, t, key, value)
    case Remove(key) => Drop(t, key)
  }

  function Exec(lib: RegexLibrary, ops: seq<Op>): Table {
    if ops == [] then EMPTY else Apply(lib, Exec(lib, ops[..|ops| - 1]), ops[|ops| - 1])
  }

  /** A `Set` of a regular expression that does not compile is logged and ignored. */
  predicate TakesEffect(lib: RegexLibrary, op: Op) {
    op.Remove? || KindOf(op.key) != Regex || lib.compiles(op.key[1..])
  }

  /** The last operation of a history that wrote the entry of a key; no tables involved. */
  function LastWrite(lib: RegexLibrary, ops: seq<Op>, key: string): (r: Option<Op>)
  {
    if ops == [] then None
    else
      var last := ops[|ops| - 1];
      if Canonical(last.key) == Canonical(key) && TakesEffect(lib, last) then Some(last)
      else LastWrite(lib, ops[..|ops| - 1], key)
  }

  lemma CanonicalIdempotent(key: string)
    ensures Canonical(Canonical(key)) == Canonical(key)
  {
  }

  lemma {:induction false} ExecWellFormed(lib: RegexLibrary, ops: seq<Op>)
    ensures WellFormed(Exec(lib, ops))
  {
    if ops != [] {
      ExecWellFormed(lib, ops[..|ops| - 1]);
      CanonicalIdempotent(ops[|ops| - 1].key);
    }
  }

  /** Looking a key up answers with the last effective write to it, and nothing else does. */
  lemma {:induction false} LookupIsLastWrite(lib: RegexLibrary, ops: seq<Op>, key: string)
    ensures var w := LastWrite(lib, ops, key);
            Lookup(Exec(lib, ops), key) ==
            if w.Some? && w.value.Set? then Some(KindOf(key) != Plain || w.value.value) else None
  {
    if ops != [] {
      LookupIsLastWrite(lib, ops[..|ops| - 1], key);
      var op := ops[|ops| - 1];
      assert Canonical(op.key) == Canonical(key) ==> KindOf(op.key) == KindOf(key);
    }
  }

  /** The rule that a stored key stands for, read off the key alone. */
  predicate Covers(lib: RegexLibrary, key: string, name: string) {
    match KindOf(key)
    case Regex => lib.matches(key[1..], Lower(name))
    case Glob => G.Matches(Lower(key), Lower(name))
    case Plain => Lower(key) == Lower(name)
  }

  /**
   The two-table list refines one set of rules: a name is blocked exactly when some key whose last
   effective write is a `Set` covers it, whatever value was set.
   */
  lemma BlocksByHistory(lib: RegexLibrary, ops: seq<Op>, name: string)
    ensures Blocks(lib, Exec(lib, ops), name)
            <==> exists key :: LastWrite(lib, ops, key).Some? && LastWrite(lib, ops, key).value.Set?
                               && Covers(lib, key, name)
  {
    var t := Exec(lib, ops);
    ExecWellFormed(lib, ops);
    if Blocks(lib, t, name) {
      if Lower(name) in t.backend {
        var key := Lower(name);
        LookupIsLastWrite(lib, ops, key);
        LowerIdempotent(name);
        assert Covers(lib, key, name);
      } else {
        var key :| key in t.special && RuleMatches(lib, key, t.special[key], Lower(name));
        LookupIsLastWrite(lib, ops, key);
        assert Covers(lib, key, name);
      }
    }
    forall key | LastWrite(lib, ops, key).Some? && LastWrite(lib, ops, key).value.Set? && Covers(lib, key, name)
      ensures Blocks(lib, t, name)
    {
      LookupIsLastWrite(lib, ops, key);
      if KindOf(key) != Plain {
        var k := Canonical(key);
        assert k in t.special && RuleMatches(lib, k, t.special[k], Lower(name));
      }
    }
  }

  /** Names are blocked in every spelling of their case. */
  lemma BlocksFoldsCase(lib: RegexLibrary, t: Table, name: string, name': string)
    requires SameSpelling(name, name')
    ensures Blocks(lib, t, name) <==> Blocks(lib, t, name')
  {
    LowerFoldsCase(name, name');
  }

  lemma KindFoldsCase(key: string, key': string)
    requires SameSpelling(key, key')
    ensures KindOf(key) == KindOf(key')
  {
    LowerFoldsCase(key, key');
    LowerKeepsMark(key, '*');
    LowerKeepsMark(key', '*');
    LowerKeepsMark(key, '?');
    LowerKeepsMark(key', '?');
    assert key != "" ==> SameLetter(key[0], key'[0]);
  }

  /** A plain or glob entry blocks the same names in every spelling of either; a plain one blocks all spellings of itself. */
  lemma EntriesFoldCase(lib: RegexLibrary, t: Table, key: string, key': string, name: string, name': string)
    requires KindOf(key) != Regex && SameSpelling(key, key') && SameSpelling(name, name')
    ensures Blocks(lib, Put(lib, t, key, true), name) <==> Blocks(lib, Put(lib, t, key', true), name')
    ensures KindOf(key) == Plain && SameSpelling(key, name) ==> Blocks(lib, Put(lib, t, key, true), name)
  {
    KindFoldsCase(key, key');
    LowerFoldsCase(key, key');
    LowerFoldsCase(key, name);
    BlocksFoldsCase(lib, Put(lib, t, key, true), name, name');
  }

  /** The marks in a key decide its table, and a nil matcher marks exactly the glob rules; so plain and special keys never meet. */
  lemma TablesAreDisjoint(lib: RegexLibrary, ops: seq<Op>)
    ensures var t := Exec(lib, ops);
            && (forall k :: k in t.backend ==> !("~" <= k) && '*' !in k && '?' !in k)
            && (forall k :: k in t.special && t.special[k].Some? ==> "~" <= k)
            && (forall k :: k in t.special && t.special[k].None? ==> !("~" <= k) && ('*' in k || '?' in k))
  {
    ExecWellFormed(lib, ops);
  }
}
