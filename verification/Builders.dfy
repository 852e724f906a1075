/** Environment variables and annotations of a deployment: building them from a request, reading them back. */
module Builders {
  import opened FaasTypes
  import opened Sorting

  const FPROCESS := "fprocess"
  const SCRAPE := "prometheus.io.scrape"

  // ---------- environment ----------

  /** Reading a list into a map: the last value of a name wins. */
  function ReadEnv(s: seq<EnvVar>): map<string, string> {
    if s == [] then map[] else ReadEnv(s[..|s| - 1])[s[|s| - 1].name := s[|s| - 1].value]
  }

  /** The last value called `fprocess`, or nothing. */
  function ReadProcess(s: seq<EnvVar>): string {
    if s == [] then ""
    else if s[|s| - 1].name == FPROCESS then s[|s| - 1].value
    else ReadProcess(s[..|s| - 1])
  }

  lemma {:induction false} NamedSnoc(s: seq<EnvVar>, x: EnvVar, name: string)
    ensures Named(s + [x], name) == Named(s, name) + (if x.name == name then [x] else [])
  {
    if s == [] {
      assert s + [x] == [x];
      assert [x][1..] == [];
      assert Named([x][1..], name) == [];
    } else {
      NamedSnoc(s[1..], x, name);
      assert (s + [x])[1..] == s[1..] + [x];
    }
  }

  /** What is read for a name depends only on the values with that name, in their order. */
  lemma {:induction false} ReadEnvAt(s: seq<EnvVar>, name: string)
    ensures name in ReadEnv(s) <==> Named(s, name) != []
    ensures name in ReadEnv(s) ==> ReadEnv(s)[name] == Named(s, name)[|Named(s, name)| - 1].value
  {
    if s == [] {
    } else {
      var front, last := s[..|s| - 1], s[|s| - 1];
      ReadEnvAt(front, name);
      NamedSnoc(front, last, name);
      assert s == front + [last];
    }
  }

  /** The process is what the map says about `fprocess`. */
  lemma {:induction false} ReadProcessAt(s: seq<EnvVar>)
    ensures ReadProcess(s) == if FPROCESS in ReadEnv(s) then ReadEnv(s)[FPROCESS] else ""
  {
    if s == [] {
    } else {
      ReadProcessAt(s[..|s| - 1]);
    }
  }

  /** The values a request yields for one name: the process first, then the variable. */
  function EnvOf(process: string, vars: map<string, string>, name: string): seq<EnvVar> {
    (if process != "" && name == FPROCESS then [EnvVar(FPROCESS, process)] else []) +
    (if name in vars then [EnvVar(name, vars[name])] else [])
  }

  /** `env` is a list the request may be built into, for some order of visiting the variables. */
  ghost predicate BuiltFrom(env: seq<EnvVar>, process: string, vars: map<string, string>) {
    ByName(env) && forall name :: Named(env, name) == EnvOf(process, vars, name)
  }

  /** Append the process and then every variable in any order; sort stably by name. */
  method BuildEnvVars(process: string, vars: map<string, string>) returns (env: seq<EnvVar>)
    ensures BuiltFrom(env, process, vars)
  {
    var list: seq<EnvVar> := [];
    if |process| > 0 {
      list := [EnvVar(FPROCESS, process)];
    }
    StartListed(process, vars);
    var rest := vars.Keys;
    while rest != {}
      invariant rest <= vars.Keys
      invariant EnvListed(list, process, vars, rest)
      decreases rest
    {
      var k :| k in rest;
      ListOne(list, process, vars, rest, k);
      list := list + [EnvVar(k, vars[k])];
      rest := rest - {k};
    }
    env := StableSort(list);
    forall name
      ensures Named(env, name) == EnvOf(process, vars, name)
    {
      SortIsStable(list, name);
      assert ListedAt(list, process, vars, rest, name);
    }
  }

  /** The list so far: the process, and the variables not in `rest`. */
  ghost predicate EnvListed(list: seq<EnvVar>, process: string, vars: map<string, string>, rest: set<string>) {
    forall name :: ListedAt(list, process, vars, rest, name)
  }

  ghost predicate ListedAt(list: seq<EnvVar>, process: string, vars: map<string, string>, rest: set<string>, name: string) {
    Named(list, name) == EnvOf(process, if name in rest then map[] else vars, name)
  }

  lemma StartListed(process: string, vars: map<string, string>)
    ensures EnvListed(if process != "" then [EnvVar(FPROCESS, process)] else [], process, vars, vars.Keys)
  {
    var list := if process != "" then [EnvVar(FPROCESS, process)] else [];
    forall name
      ensures ListedAt(list, process, vars, vars.Keys, name)
    {
      NamedSnoc([], EnvVar(FPROCESS, process), name);
      assert [] + [EnvVar(FPROCESS, process)] == [EnvVar(FPROCESS, process)];
    }
  }

  lemma ListOne(list: seq<EnvVar>, process: string, vars: map<string, string>, rest: set<string>, k: string)
    requires EnvListed(list, process, vars, rest) && k in rest && k in vars
    ensures EnvListed(list + [EnvVar(k, vars[k])], process, vars, rest - {k})
  {
    var x := EnvVar(k, vars[k]);
    forall name
      ensures ListedAt(list + [x], process, vars, rest - {k}, name)
    {
      NamedSnoc(list, x, name);
      assert ListedAt(list, process, vars, rest, name);
      if name == k {
        assert Named(list, name) + [x] == EnvOf(process, vars, name);
      } else {
        assert Named(list, name) + [] == Named(list, name);
      }
    }
  }

  /** Reading back a built list: the variables, with the process only where they do not name it themselves. */
  lemma ReadBuiltEnv(env: seq<EnvVar>, process: string, vars: map<string, string>)
    requires BuiltFrom(env, process, vars)
    ensures ReadEnv(env) == (if process != "" then map[FPROCESS := process] else map[]) + vars
    ensures ReadProcess(env) == if FPROCESS in vars then vars[FPROCESS] else process
  {
    var expected := (if process != "" then map[FPROCESS := process] else map[]) + vars;
    forall name
      ensures name in ReadEnv(env) <==> name in expected
      ensures name in expected ==> ReadEnv(env)[name] == expected[name]
    {
      ReadEnvAt(env, name);
      assert Named(env, name) == EnvOf(process, vars, name);
    }
    ReadProcessAt(env);
  }

  // ---------- the minimum replica count ----------

  const MIN_LABEL := "com.openfaas.scale.min"

  predicate IsDigit(c: char) {
    '0' <= c <= '9'
  }

  function Digit(c: char): nat
    requires IsDigit(c)
  {
    c as int - '0' as int
  }

  predicate AllDigits(s: string) {
    s != [] && forall i :: 0 <= i < |s| ==> IsDigit(s[i])
  }

  function DigitsValue(s: string): nat
    requires forall i :: 0 <= i < |s| ==> IsDigit(s[i])
  {
    if s == [] then 0 else 10 * DigitsValue(s[..|s| - 1]) + Digit(s[|s| - 1])
  }

  /** Go's `strconv.Atoi`: an optional sign and decimal digits, within 64 bits. */
  function Atoi(s: string): Option<int> {
    var signed := s != [] && (s[0] == '-' || s[0] == '+');
    var digits := if signed then s[1..] else s;
    if !AllDigits(digits) then None else
      var n := if signed && s[0] == '-' then 0 - DigitsValue(digits) else DigitsValue(digits);
      if -INT64_LIMIT <= n < INT64_LIMIT then Some(n) else None
  }

  /** The replica count the labels ask for, converted to 32 bits; anything but a positive number is ignored. */
  function MinReplicas(labels: map<string, string>): Option<int> {
    if MIN_LABEL !in labels then None else
      var n := Atoi(labels[MIN_LABEL]);
      if n.Some? && 0 < n.value then Some(ToInt32(n.value)) else None
  }

  /** How a number is written. */
  function Decimal(n: nat): (s: string)
    ensures AllDigits(s)
  {
    var digit := [(n % 10 + '0' as int) as char];
    if n < 10 then digit else Decimal(n / 10) + digit
  }

  lemma {:induction false} DecimalValue(n: nat)
    ensures DigitsValue(Decimal(n)) == n
  {
    var digit := [(n % 10 + '0' as int) as char];
    if n < 10 {
      assert digit[..0] == [];
      assert DigitsValue(digit[..0]) == 0;
    } else {
      DecimalValue(n / 10);
      assert Decimal(n)[..|Decimal(n)| - 1] == Decimal(n / 10);
    }
  }

  /** A written number is read back, with or without a sign, exactly if it fits 64 bits. */
  lemma AtoiInvertsDecimal(n: nat)
    ensures Atoi(Decimal(n)) == Atoi("+" + Decimal(n)) == if n < INT64_LIMIT then Some(n) else None
    ensures Atoi("-" + Decimal(n)) == if n <= INT64_LIMIT then Some(0 - n) else None
  {
    DecimalValue(n);
    assert IsDigit(Decimal(n)[0]);
    assert ("+" + Decimal(n))[1..] == Decimal(n) && ("-" + Decimal(n))[1..] == Decimal(n);
  }

  /** A minimum is taken from the label exactly if it is positive and fits 64 bits, and it stays itself below 2^31. */
  lemma MinReplicasOfLabel(labels: map<string, string>, n: nat)
    requires MIN_LABEL in labels && labels[MIN_LABEL] == Decimal(n)
    ensures MinReplicas(labels) == if 0 < n < INT64_LIMIT then Some(ToInt32(n)) else None
    ensures MinReplicas(labels) == Some(n) <==> 0 < n < INT32_LIMIT
  {
    AtoiInvertsDecimal(n);
  }

  /** A label of 2^32 asks for no replica at all. */
  lemma MinReplicasWraps(labels: map<string, string>)
    requires MIN_LABEL in labels && labels[MIN_LABEL] == Decimal(INT32_MODULUS)
    ensures MinReplicas(labels) == Some(0)
  {
    MinReplicasOfLabel(labels, INT32_MODULUS);
  }

  // ---------- the labels of a request ----------

  const MAX_LABEL := "com.openfaas.scale.max"
  const ZERO_LABEL := "com.openfaas.scale.zero"
  const ZERO_DURATION_LABEL := "com.openfaas.scale.zero-duration"
  const TARGET_LABEL := "com.openfaas.scale.target"
  const TYPE_LABEL := "com.openfaas.scale.type"

  /** The label's value is a number above the licensed count. */
  predicate TooHigh(labels: map<string, string>, key: string) {
    key in labels && Atoi(labels[key]).Some? && MAX_REPLICAS < Atoi(labels[key]).value
  }

  /** What the deploy and update handlers check; a copy of a function skips it. */
  predicate LabelsAllowed(labels: map<string, string>) {
    && !(ZERO_LABEL in labels && labels[ZERO_LABEL] == "true")
    && ZERO_DURATION_LABEL !in labels && TARGET_LABEL !in labels && TYPE_LABEL !in labels
    && !TooHigh(labels, MAX_LABEL) && !TooHigh(labels, MIN_LABEL)
  }

  /** A minimum that passed the check is the very number in the label, from one to the licensed count. */
  lemma AllowedMinimum(labels: map<string, string>)
    requires LabelsAllowed(labels) && MinReplicas(labels).Some?
    ensures MIN_LABEL in labels && Atoi(labels[MIN_LABEL]) == MinReplicas(labels)
    ensures 1 <= MinReplicas(labels).value <= MAX_REPLICAS
  {
  }

  /** Of the numbers that can be written there, the check lets through the small ones and those beyond 64 bits. */
  lemma AllowedNumbers(labels: map<string, string>, n: nat)
    requires MIN_LABEL in labels && labels[MIN_LABEL] == Decimal(n)
    ensures TooHigh(labels, MIN_LABEL) <==> MAX_REPLICAS < n < INT64_LIMIT
    ensures LabelsAllowed(labels) ==> MinReplicas(labels) == if 1 <= n <= MAX_REPLICAS then Some(n) else None
  {
    AtoiInvertsDecimal(n);
  }

  // ---------- annotations ----------

  datatype AnnotationError = TopicList | Unsupported | NilMapWrite

  predicate Contains(s: string, part: string) {
    part <= s || (s != [] && Contains(s[1..], part))
  }

  /** `part` stands in `s` at position `i`. */
  predicate StandsAt(s: string, part: string, i: nat) {
    i + |part| <= |s| && s[i..i + |part|] == part
  }

  lemma {:induction false} ContainsAt(s: string, part: string, i: nat)
    requires StandsAt(s, part, i)
    ensures Contains(s, part)
  {
    if i == 0 {
    } else {
      assert s[1..][i - 1..i - 1 + |part|] == s[i..i + |part|];
      ContainsAt(s[1..], part, i - 1);
    }
  }

  lemma {:induction false} ContainsWhere(s: string, part: string) returns (i: nat)
    requires Contains(s, part)
    ensures StandsAt(s, part, i)
  {
    if part <= s {
      i := 0;
    } else {
      var j := ContainsWhere(s[1..], part);
      assert s[1..][j..j + |part|] == s[j + 1..j + 1 + |part|];
      i := j + 1;
    }
  }

  lemma ContainsIff(s: string, part: string)
    ensures Contains(s, part) <==> exists i: nat :: StandsAt(s, part, i)
  {
    if Contains(s, part) {
      var i := ContainsWhere(s, part);
    }
    if i: nat :| StandsAt(s, part, i) {
      ContainsAt(s, part, i);
    }
  }

  function Entries(p: MapPointer): map<string, string> {
    if p.Allocated? then p.entries else map[]
  }

  /** A missing scrape annotation is added; through a pointer to a nil map that is a write to a nil map. */
  function BuildAnnotations(p: MapPointer): Result<map<string, string>, AnnotationError> {
    var entries := Entries(p);
    if "topic" in entries && Contains(entries["topic"], ",") then Err(TopicList)
    else if exists k :: k in entries && (Contains(k, "amazonaws.com") || Contains(k, "gke.io")) then Err(Unsupported)
    else if SCRAPE in entries then Ok(entries)
    else if p.NilMap? then Err(NilMapWrite)
    else Ok(entries[SCRAPE := "false"])
  }

  /** The annotations of the paid edition: several topics in one value, or a key of two cloud providers. */
  ghost predicate Forbidden(entries: map<string, string>) {
    || ("topic" in entries && ',' in entries["topic"])
    || exists k, i: nat :: k in entries && (StandsAt(k, "amazonaws.com", i) || StandsAt(k, "gke.io", i))
  }

  lemma CommaIff(s: string)
    ensures Contains(s, ",") <==> ',' in s
  {
    ContainsIff(s, ",");
    if i: nat :| StandsAt(s, ",", i) {
      assert s[i..i + 1][0] == s[i];
    }
    if i :| 0 <= i < |s| && s[i] == ',' {
      assert s[i..i + 1] == ",";
      assert StandsAt(s, ",", i);
    }
  }

  /** Annotations are refused exactly if they are forbidden; the write fails exactly if the map is nil. */
  lemma AnnotationsOutcome(p: MapPointer)
    ensures BuildAnnotations(p) == Err(NilMapWrite) <==> p.NilMap?
    ensures BuildAnnotations(p).Err? && !p.NilMap? <==> Forbidden(Entries(p))
  {
    var entries := Entries(p);
    if "topic" in entries {
      CommaIff(entries["topic"]);
    }
    forall k | k in entries
      ensures Contains(k, "amazonaws.com") <==> exists i: nat :: StandsAt(k, "amazonaws.com", i)
      ensures Contains(k, "gke.io") <==> exists i: nat :: StandsAt(k, "gke.io", i)
    {
      ContainsIff(k, "amazonaws.com");
      ContainsIff(k, "gke.io");
    }
  }

  /**
   Accepted annotations come through with every entry, and with the scrape annotation, "false" if it was missing; so
   unchanged exactly when it was there.
   */
  lemma AnnotationsUnchangedIff(p: MapPointer)
    requires BuildAnnotations(p).Ok?
    ensures var built, entries := BuildAnnotations(p).value, Entries(p);
            && built.Keys == entries.Keys + {"prometheus.io.scrape"}
            && (forall k :: k in entries ==> built[k] == entries[k])
            && ("prometheus.io.scrape" !in entries ==> built["prometheus.io.scrape"] == "false")
            && (built == entries <==> "prometheus.io.scrape" in entries)
  {
    assert SCRAPE == "prometheus.io.scrape";
    if SCRAPE !in Entries(p) {
      assert SCRAPE in BuildAnnotations(p).value;
    }
  }

  /** What the caller's pointer leads to afterwards: the addition is made in the caller's own map. */
  function WrittenBack(p: MapPointer): MapPointer {
    var built := BuildAnnotations(p);
    if p.Allocated? && built.Ok? then Allocated(built.value) else p
  }

  /** So a second time nothing is added: the result is what the first left behind. */
  lemma AnnotationsSecondTime(p: MapPointer)
    requires BuildAnnotations(p).Ok? && p.Allocated?
    ensures BuildAnnotations(WrittenBack(p)) == BuildAnnotations(p)
    ensures Allocated(BuildAnnotations(WrittenBack(p)).value) == WrittenBack(p)
  {
    AnnotationsOutcome(p);
    AnnotationsOutcome(WrittenBack(p));
    ScrapeIsAllowed(Entries(p));
  }

  lemma ScrapeIsAllowed(entries: map<string, string>)
    requires !Forbidden(entries)
    ensures !Forbidden(entries[SCRAPE := "false"])
  {
    ScrapeIsNeutral();
    assert SCRAPE != "topic" by {
      assert |SCRAPE| != |"topic"|;
    }
    forall k, i: nat | k in entries[SCRAPE := "false"]
      ensures !StandsAt(k, "amazonaws.com", i) && !StandsAt(k, "gke.io", i)
    {
      if k != SCRAPE {
        assert k in entries;
      }
    }
  }

  lemma LetterInside(s: string, part: string, i: nat, k: nat)
    requires k < |part|
    ensures StandsAt(s, part, i) ==> part[k] in s
  {
    if StandsAt(s, part, i) {
      assert s[i..i + |part|][k] == s[i + k];
    }
  }

  lemma ScrapeIsNeutral()
    ensures forall i: nat :: !StandsAt(SCRAPE, "amazonaws.com", i) && !StandsAt(SCRAPE, "gke.io", i)
  {
    assert 'z' !in SCRAPE && 'g' !in SCRAPE;
    forall i: nat
      ensures !StandsAt(SCRAPE, "amazonaws.com", i) && !StandsAt(SCRAPE, "gke.io", i)
    {
      LetterInside(SCRAPE, "amazonaws.com", i, 3);
      LetterInside(SCRAPE, "gke.io", i, 0);
    }
  }

  /** A pointer after its map went through JSON: a nil map is written as null and read as a nil pointer. */
  function ThroughJson(p: MapPointer): MapPointer {
    if p.NilMap? then NilPointer else p
  }
}
