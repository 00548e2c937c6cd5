/** Questions and their cache keys (`handler.go` `Question.String`, `UnFqdn`, `isIPQuery`; `cache.go` `KeyGen`). */
module Questions {
  import opened Text

  const TYPE_A := 1
  const TYPE_AAAA := 28
  const CLASS_INET := 1

  /** A question as it stands in a message. */
  datatype WireQuestion = WireQuestion(name: string, qtype: nat, qclass: nat)

  /** A question in the form that is printed and hashed. */
  datatype Question = Question(qname: string, qtype: string, qclass: string)

  /** The library's tables of type and class mnemonics; an unknown code has the empty one. */
  datatype Mnemonics = Mnemonics(typeName: nat -> string, className: nat -> string) {
    /** No mnemonic holds a space, and A, AAAA and IN each belong to one code. */
    ghost predicate Standard() {
      && (forall t :: ' ' !in typeName(t)) && (forall c :: ' ' !in className(c))
      && (forall t :: typeName(t) == "A" <==> t == TYPE_A)
      && (forall t :: typeName(t) == "AAAA" <==> t == TYPE_AAAA)
      && (forall c :: className(c) == "IN" <==> c == CLASS_INET)
    }
  }

  function TrailingBackslashes(s: string): nat {
    if s != "" && s[|s| - 1] == '\\' then 1 + TrailingBackslashes(s[..|s| - 1]) else 0
  }

  /** Ends in a dot that is not escaped. */
  predicate IsFqdn(s: string) {
    s != "" && s[|s| - 1] == '.' && TrailingBackslashes(s[..|s| - 1]) % 2 == 0
  }

  function UnFqdn(s: string): string {
    if IsFqdn(s) then s[..|s| - 1] else s
  }

  /** Stripping the final dot keeps different absolute names different. */
  lemma UnFqdnInjective(a: string, b: string)
    requires IsFqdn(a) && IsFqdn(b) && UnFqdn(a) == UnFqdn(b)
    ensures a == b
  {
  }

  function Backslashes(n: nat): string {
    seq(n, _ => '\\')
  }

  lemma {:induction false} BackslashesCounted(s: string, n: nat)
    requires s == "" || s[|s| - 1] != '\\'
    ensures TrailingBackslashes(s + Backslashes(n)) == n
  {
    if n == 0 {
      assert s + Backslashes(0) == s;
    } else {
      var t := s + Backslashes(n);
      assert t[..|t| - 1] == s + Backslashes(n - 1);
      BackslashesCounted(s, n - 1);
    }
  }

  /** The final dot is stripped exactly when an even number of backslashes stands before it; a name without one is left alone. */
  lemma UnFqdnStripsTheDot(s: string, n: nat)
    requires s == "" || s[|s| - 1] != '\\'
    ensures var name := s + Backslashes(n); UnFqdn(name + ".") == if n % 2 == 0 then name else name + "."
    ensures s == "" || s[|s| - 1] != '.' ==> UnFqdn(s) == s
  {
    BackslashesCounted(s, n);
    var name := s + Backslashes(n);
    assert (name + ".")[..|name + "."| - 1] == name;
  }

  function Printed(q: Question): string {
    q.qname + " " + q.qclass + " " + q.qtype
  }

  /** What follows the last space. */
  function LastWord(s: string): string {
    if s == "" || s[|s| - 1] == ' ' then "" else LastWord(s[..|s| - 1]) + [s[|s| - 1]]
  }

  lemma {:induction false} LastWordOf(a: string, x: string)
    requires ' ' !in x
    ensures LastWord(a + " " + x) == x
  {
    var s := a + " " + x;
    if x == "" {
      assert s[|s| - 1] == ' ';
    } else {
      var init := x[..|x| - 1];
      assert s[..|s| - 1] == a + " " + init;
      LastWordOf(a, init);
      assert x == init + [x[|x| - 1]];
    }
  }

  lemma LastWordUnique(a: string, x: string, b: string, y: string)
    requires ' ' !in x && ' ' !in y && a + " " + x == b + " " + y
    ensures a == b && x == y
  {
    LastWordOf(a, x);
    LastWordOf(b, y);
    var s := a + " " + x;
    assert a == s[..|a|] && b == s[..|b|];
  }

  /** Printing is injective, whatever the name holds, as long as the mnemonics hold no space. */
  lemma PrintedInjective(p: Question, q: Question)
    requires ' ' !in p.qtype && ' ' !in p.qclass && ' ' !in q.qtype && ' ' !in q.qclass
    requires Printed(p) == Printed(q)
    ensures p == q
  {
    LastWordUnique(p.qname + " " + p.qclass, p.qtype, q.qname + " " + q.qclass, q.qtype);
    LastWordUnique(p.qname, p.qclass, q.qname, q.qclass);
  }

  /** 4 for A, 6 for AAAA, 0 for anything else or any class but IN. */
  function IsIPQuery(q: WireQuestion): nat {
    if q.qclass != CLASS_INET then 0
    else if q.qtype == TYPE_A then 4
    else if q.qtype == TYPE_AAAA then 6
    else 0
  }

  function Named(m: Mnemonics, q: WireQuestion): Question {
    Question(UnFqdn(q.name), m.typeName(q.qtype), m.className(q.qclass))
  }

  /** The name, type and class are the same, the final dot of the name aside. */
  predicate SameQuestion(p: WireQuestion, q: WireQuestion) {
    UnFqdn(p.name) == UnFqdn(q.name) && p.qtype == q.qtype && p.qclass == q.qclass
  }

  /** A question with the key of an address question is that address question. */
  lemma SameKeySameQuestion(m: Mnemonics, p: WireQuestion, q: WireQuestion)
    requires m.Standard() && IsIPQuery(p) > 0
    ensures Printed(Named(m, p)) == Printed(Named(m, q)) <==> SameQuestion(p, q)
  {
    if Printed(Named(m, p)) == Printed(Named(m, q)) {
      PrintedInjective(Named(m, p), Named(m, q));
    }
  }
}
