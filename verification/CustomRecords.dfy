/** Custom records (`records.go`): configuration text is parsed and grouped by record name. */
module CustomRecords {
  import opened Text
  import opened CnameFollowing

  /** What the library's record parser makes of a text; one without a record (empty, a comment, a directive) is no error. */
  datatype Parsed = Record(rr: RR) | ParseError | Nothing

  type Parser = string -> Parsed

  datatype Group = Group(name: string, answer: seq<RR>)

  /** The records that the configuration yields: parsed, and with a name. */
  function Accepted(parse: Parser, texts: seq<string>): seq<RR> {
    if texts == [] then []
    else
      var rest := Accepted(parse, texts[..|texts| - 1]);
      match parse(texts[|texts| - 1])
      case Record(rr) => if rr.name != "" then rest + [rr] else rest
      case _ => rest
  }

  /** Those with a given name, in order. */
  function Named(rrs: seq<RR>, name: string): seq<RR> {
    if rrs == [] then []
    else
      var rest := Named(rrs[..|rrs| - 1], name);
      if rrs[|rrs| - 1].name == name then rest + [rrs[|rrs| - 1]] else rest
  }

  /** The map from names to records holds every record under its own name, in order, and no empty list. */
  ghost predicate Grouped(m: map<string, seq<RR>>, rrs: seq<RR>) {
    && (forall n :: n in m ==> m[n] == Named(rrs, n) && m[n] != [])
    && (forall n :: n !in m ==> Named(rrs, n) == [])
  }

  function Total(groups: seq<Group>): nat {
    if groups == [] then 0 else Total(groups[..|groups| - 1]) + |groups[|groups| - 1].answer|
  }

  function NamesOf(groups: seq<Group>): set<string> {
    if groups == [] then {} else NamesOf(groups[..|groups| - 1]) + {groups[|groups| - 1].name}
  }

  predicate DistinctNames(groups: seq<Group>) {
    groups == [] || (DistinctNames(groups[..|groups| - 1]) && groups[|groups| - 1].name !in NamesOf(groups[..|groups| - 1]))
  }

  /** The groups are exactly the grouping of the records: one per name, each complete and in order. */
  ghost predicate IsGrouping(groups: seq<Group>, rrs: seq<RR>) {
    && DistinctNames(groups)
    && (forall g :: g in groups ==> g.answer == Named(rrs, g.name) && g.answer != [])
    && (forall n :: n in NamesOf(groups) <==> Named(rrs, n) != [])
  }

  lemma GroupedStep(m: map<string, seq<RR>>, rrs: seq<RR>, rr: RR)
    requires Grouped(m, rrs)
    ensures Grouped(m[rr.name := (if rr.name in m then m[rr.name] else []) + [rr]], rrs + [rr])
  {
  }

  lemma GroupsOfMap(m: map<string, seq<RR>>, rrs: seq<RR>, groups: seq<Group>)
    requires Grouped(m, rrs) && DistinctNames(groups) && NamesOf(groups) == m.Keys
    requires forall g :: g in groups ==> g.name in m && g.answer == m[g.name]
    ensures IsGrouping(groups, rrs)
  {
    assert forall n :: Named(rrs, n) != [] <==> n in m;
  }

  /** A text without a record yields a nil record, whose header the code reads: a fault. */
  method FromText(parse: Parser, texts: seq<string>) returns (groups: seq<Group>, total: nat, faulted: bool)
    ensures faulted <==> exists text :: text in texts && parse(text).Nothing?
    ensures !faulted ==> IsGrouping(groups, Accepted(parse, texts)) && total == Total(groups)
  {
    var byName: map<string, seq<RR>> := map[];
    for i := 0 to |texts|
      invariant Grouped(byName, Accepted(parse, texts[..i]))
      invariant forall text :: text in texts[..i] ==> !parse(text).Nothing?
    {
      assert texts[..i + 1] == texts[..i] + [texts[i]];
      var answer := parse(texts[i]);
      if answer.Nothing? {
        return [], 0, true;
      }
      if answer.Record? {
        var name := answer.rr.name;
        if |name| > 0 {
          GroupedStep(byName, Accepted(parse, texts[..i]), answer.rr);
          if name !in byName {
            byName := byName[name := []];
          }
          byName := byName[name := byName[name] + [answer.rr]];
        }
      }
    }
    assert texts[..|texts|] == texts;
    groups, total := FromMap(byName);
    GroupsOfMap(byName, Accepted(parse, texts), groups);
    faulted := false;
  }

  /** Ranges over the map in whatever order it yields. */
  method FromMap(from: map<string, seq<RR>>) returns (groups: seq<Group>, total: nat)
    ensures DistinctNames(groups) && NamesOf(groups) == from.Keys
    ensures forall g :: g in groups ==> g.name in from && g.answer == from[g.name]
    ensures total == Total(groups)
  {
    groups, total := [], 0;
    var left := from.Keys;
    while left != {}
      invariant left <= from.Keys
      invariant DistinctNames(groups) && NamesOf(groups) == from.Keys - left
      invariant forall g :: g in groups ==> g.name in from && g.answer == from[g.name]
      invariant total == Total(groups)
    {
      var name :| name in left;
      ghost var before := groups;
      var group := Group(name, from[name]);
      groups := groups + [group];
      total := total + |from[name]|;
      left := left - {name};
      assert groups[..|before|] == before && groups[|before|] == group;
      assert NamesOf(groups) == NamesOf(before) + {name};
      assert forall g :: g in groups ==> g in before || g == group;
    }
  }

  // -------- what is accepted, and order --------

  /** Exactly the texts that parse to a record with a name are accepted. */
  lemma {:induction false} AcceptedExact(parse: Parser, texts: seq<string>, rr: RR)
    ensures rr in Accepted(parse, texts) <==> exists text :: text in texts && parse(text) == Record(rr) && rr.name != ""
  {
    if texts != [] {
      AcceptedExact(parse, texts[..|texts| - 1], rr);
      assert texts == texts[..|texts| - 1] + [texts[|texts| - 1]];
    }
  }

  /** The text parses to a record with a name. */
  predicate IsAccepted(parse: Parser, text: string) {
    parse(text).Record? && parse(text).rr.name != ""
  }

  /** Each position whose text is accepted yields one record, and no other position does. */
  lemma {:induction false} AcceptedOnce(parse: Parser, texts: seq<string>)
    ensures |Accepted(parse, texts)| == |set i | 0 <= i < |texts| && IsAccepted(parse, texts[i])|
  {
    if texts != [] {
      var n := |texts| - 1;
      var init := texts[..n];
      AcceptedOnce(parse, init);
      var before := set i | 0 <= i < |init| && IsAccepted(parse, init[i]);
      var all := set i | 0 <= i < |texts| && IsAccepted(parse, texts[i]);
      assert all == before + (if IsAccepted(parse, texts[n]) then {n} else {});
    }
  }

  /** Order is kept: what comes first in the configuration comes first among the accepted records. */
  lemma {:induction false} AcceptedInOrder(parse: Parser, a: seq<string>, b: seq<string>)
    ensures Accepted(parse, a + b) == Accepted(parse, a) + Accepted(parse, b)
  {
    if b == [] {
      assert a + b == a;
    } else {
      assert (a + b)[..|a + b| - 1] == a + b[..|b| - 1];
      AcceptedInOrder(parse, a, b[..|b| - 1]);
    }
  }

  /** And in each group. */
  lemma {:induction false} GroupInOrder(a: seq<RR>, b: seq<RR>, name: string)
    ensures Named(a + b, name) == Named(a, name) + Named(b, name)
  {
    if b == [] {
      assert a + b == a;
    } else {
      assert (a + b)[..|a + b| - 1] == a + b[..|b| - 1];
      GroupInOrder(a, b[..|b| - 1], name);
    }
  }

  // -------- conservation --------

  function Count(rrs: seq<RR>, names: set<string>): nat {
    if rrs == [] then 0
    else Count(rrs[..|rrs| - 1], names) + (if rrs[|rrs| - 1].name in names then 1 else 0)
  }

  lemma {:induction false} CountSplits(rrs: seq<RR>, names: set<string>, n: string)
    requires n !in names
    ensures Count(rrs, names + {n}) == Count(rrs, names) + |Named(rrs, n)|
  {
    if rrs != [] {
      CountSplits(rrs[..|rrs| - 1], names, n);
    }
  }

  lemma {:induction false} CountNone(rrs: seq<RR>)
    ensures Count(rrs, {}) == 0
  {
    if rrs != [] {
      CountNone(rrs[..|rrs| - 1]);
    }
  }

  lemma {:induction false} CountAll(rrs: seq<RR>, names: set<string>)
    requires forall rr :: rr in rrs ==> rr.name in names
    ensures Count(rrs, names) == |rrs|
  {
    if rrs != [] {
      assert rrs[|rrs| - 1] in rrs;
      CountAll(rrs[..|rrs| - 1], names);
    }
  }

  lemma {:induction false} TotalIsCount(groups: seq<Group>, rrs: seq<RR>)
    requires DistinctNames(groups)
    requires forall g :: g in groups ==> g.answer == Named(rrs, g.name)
    ensures Total(groups) == Count(rrs, NamesOf(groups))
  {
    if groups == [] {
      CountNone(rrs);
    } else {
      var init, last := groups[..|groups| - 1], groups[|groups| - 1];
      assert last in groups && forall g :: g in init ==> g in groups;
      TotalIsCount(init, rrs);
      CountSplits(rrs, NamesOf(init), last.name);
    }
  }

  /** A name has one group, and distinct groups occur once. */
  lemma {:induction false} NameHasGroup(groups: seq<Group>, n: string)
    ensures n in NamesOf(groups) <==> exists g :: g in groups && g.name == n
  {
    if groups != [] {
      var init, last := groups[..|groups| - 1], groups[|groups| - 1];
      NameHasGroup(init, n);
      assert groups == init + [last];
      assert last in groups && forall g :: g in init ==> g in groups;
    }
  }

  lemma {:induction false} OccursOnce(groups: seq<Group>, g: Group)
    requires DistinctNames(groups)
    ensures multiset(groups)[g] == if g in groups then 1 else 0
  {
    if groups != [] {
      var init, last := groups[..|groups| - 1], groups[|groups| - 1];
      OccursOnce(init, g);
      NameHasGroup(init, last.name);
      assert groups == init + [last];
      assert multiset(groups) == multiset(init) + multiset{last};
    }
  }

  lemma {:induction false} NamedHolds(rrs: seq<RR>, name: string)
    ensures forall rr :: rr in Named(rrs, name) <==> rr in rrs && rr.name == name
  {
    if rrs != [] {
      NamedHolds(rrs[..|rrs| - 1], name);
      assert rrs == rrs[..|rrs| - 1] + [rrs[|rrs| - 1]];
    }
  }

  /** Each record lands in the group of its own name. */
  lemma EveryRecordIsGrouped(groups: seq<Group>, rrs: seq<RR>, rr: RR)
    requires IsGrouping(groups, rrs) && rr in rrs
    ensures rr.name in NamesOf(groups)
    ensures exists g :: g in groups && g.name == rr.name && rr in g.answer
  {
    NamedHolds(rrs, rr.name);
    assert rr in Named(rrs, rr.name);
    NameHasGroup(groups, rr.name);
  }

  lemma SizesAddUp(groups: seq<Group>, rrs: seq<RR>)
    requires IsGrouping(groups, rrs)
    ensures Total(groups) == |rrs|
  {
    TotalIsCount(groups, rrs);
    forall rr | rr in rrs ensures rr.name in NamesOf(groups) {
      EveryRecordIsGrouped(groups, rrs, rr);
    }
    CountAll(rrs, NamesOf(groups));
  }

  /**
   Grouping conserves records: each lands in the one group of its own name and in no other, each group
   keeps configuration order (it is the configuration filtered by name), and the sizes add up.
   */
  lemma GroupingConserves(groups: seq<Group>, rrs: seq<RR>)
    requires IsGrouping(groups, rrs)
    ensures Total(groups) == |rrs|
    ensures forall rr :: rr in rrs ==> exists g :: g in groups && g.name == rr.name && rr in g.answer
    ensures forall g, rr :: g in groups && rr in g.answer ==> rr in rrs && g.name == rr.name
    ensures forall g, h :: g in groups && h in groups && g.name == h.name ==> g == h
    ensures forall g :: g in groups ==> g.answer == Named(rrs, g.name) && multiset(groups)[g] == 1
  {
    SizesAddUp(groups, rrs);
    forall rr | rr in rrs ensures exists g :: g in groups && g.name == rr.name && rr in g.answer {
      EveryRecordIsGrouped(groups, rrs, rr);
    }
    forall g, rr | g in groups && rr in g.answer ensures rr in rrs && g.name == rr.name {
      NamedHolds(rrs, g.name);
    }
    forall g | g in groups ensures multiset(groups)[g] == 1 {
      OccursOnce(groups, g);
    }
  }

  /** A reload depends on the new text alone: any two groupings of it hold the same groups. */
  lemma GroupingUnique(a: seq<Group>, b: seq<Group>, rrs: seq<RR>)
    requires IsGrouping(a, rrs) && IsGrouping(b, rrs)
    ensures multiset(a) == multiset(b)
  {
    forall g: Group ensures multiset(a)[g] == multiset(b)[g] {
      OccursOnce(a, g);
      OccursOnce(b, g);
      NameHasGroup(a, g.name);
      NameHasGroup(b, g.name);
    }
  }
}
