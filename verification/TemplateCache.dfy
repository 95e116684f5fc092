/**
 The request caches of chat.cpp: generation prompts and generated parsers are kept across requests
 for the same template. Rendering and parser generation are given as functions.
 */
module TemplateCache {
  import opened Wrappers

  const Capacity := 8

  // ---------------------------------------------------------------------------
  // A list of entries, oldest first
  // ---------------------------------------------------------------------------

  datatype Entry<+V> = Entry(key: string, value: V)

  function Find<V>(es: seq<Entry<V>>, key: string): Option<V> {
    if es == [] then None
    else if es[0].key == key then Some(es[0].value)
    else Find(es[1..], key)
  }

  function Replace<V>(es: seq<Entry<V>>, key: string, value: V): (r: seq<Entry<V>>)
    ensures |r| == |es|
  {
    if es == [] then []
    else if es[0].key == key then [Entry(key, value)] + es[1..]
    else [es[0]] + Replace(es[1..], key, value)
  }

  /** An entry is replaced in place; a new one goes to the end, and the oldest one may have to go. */
  function Put<V>(es: seq<Entry<V>>, key: string, value: V): seq<Entry<V>> {
    if Find(es, key).Some? then Replace(es, key, value)
    else
      var grown := es + [Entry(key, value)];
      if |grown| > Capacity then grown[1..] else grown
  }

  function Drop<V>(es: seq<Entry<V>>, key: string): (r: seq<Entry<V>>)
    ensures |r| <= |es|
  {
    if es == [] then []
    else if es[0].key == key then Drop(es[1..], key)
    else [es[0]] + Drop(es[1..], key)
  }

  predicate DistinctKeys<V>(es: seq<Entry<V>>) { forall i, j :: 0 <= i < j < |es| ==> es[i].key != es[j].key }

  /** No key twice, and not too many. */
  predicate Tidy<V>(es: seq<Entry<V>>) { |es| <= Capacity && DistinctKeys(es) }

  lemma {:induction false} FindIsEntry<V>(es: seq<Entry<V>>, key: string)
    ensures Find(es, key).Some? ==> exists i :: 0 <= i < |es| && es[i] == Entry(key, Find(es, key).value)
    ensures Find(es, key).None? ==> forall i :: 0 <= i < |es| ==> es[i].key != key
    decreases |es|
  {
    if es != [] && es[0].key != key {
      FindIsEntry(es[1..], key);
      if Find(es[1..], key).Some? {
        var i :| 0 <= i < |es[1..]| && es[1..][i] == Entry(key, Find(es, key).value);
        assert es[i + 1] == Entry(key, Find(es, key).value);
      } else {
        assert forall i :: 1 <= i < |es| ==> es[i] == es[1..][i - 1];
      }
    } else if es != [] {
      assert es[0] == Entry(key, es[0].value);
    }
  }

  lemma {:induction false} ReplaceKeys<V>(es: seq<Entry<V>>, key: string, value: V)
    ensures forall i :: 0 <= i < |es| ==> Replace(es, key, value)[i].key == es[i].key
    ensures forall i :: 0 <= i < |es| ==>
              Replace(es, key, value)[i] == es[i] || Replace(es, key, value)[i] == Entry(key, value)
    ensures Find(es, key).Some? ==> Find(Replace(es, key, value), key) == Some(value)
    decreases |es|
  {
    if es != [] && es[0].key != key {
      ReplaceKeys(es[1..], key, value);
      var r := Replace(es, key, value);
      forall i | 0 <= i < |es|
        ensures r[i].key == es[i].key && (r[i] == es[i] || r[i] == Entry(key, value))
      {
        if i > 0 {
          assert r[i] == Replace(es[1..], key, value)[i - 1] && es[i] == es[1..][i - 1];
        }
      }
      assert r[1..] == Replace(es[1..], key, value);
    }
  }

  lemma {:induction false} FindLast<V>(es: seq<Entry<V>>, key: string, value: V)
    requires Find(es, key).None?
    ensures Find(es + [Entry(key, value)], key) == Some(value)
    ensures es != [] ==> Find((es + [Entry(key, value)])[1..], key) == Some(value)
    decreases |es|
  {
    if es == [] {
    } else {
      FindLast(es[1..], key, value);
      assert (es + [Entry(key, value)])[1..] == es[1..] + [Entry(key, value)];
    }
  }

  /** Storing keeps the list tidy, finds the new value, and adds nothing else. */
  lemma PutKeepsTidy<V>(es: seq<Entry<V>>, key: string, value: V)
    requires Tidy(es)
    ensures Tidy(Put(es, key, value)) && Find(Put(es, key, value), key) == Some(value)
    ensures forall e :: e in Put(es, key, value) ==> e in es || e == Entry(key, value)
  {
    hide Find, Replace;
    FindIsEntry(es, key);
    ReplaceKeys(es, key, value);
    if Find(es, key).None? {
      FindLast(es, key, value);
    }
  }

  /** Entries stored one after the other. */
  function PutAll<V>(es: seq<Entry<V>>, xs: seq<Entry<V>>): seq<Entry<V>>
    decreases |xs|
  {
    if xs == [] then es else PutAll(Put(es, xs[0].key, xs[0].value), xs[1..])
  }

  /** The last eight of a list. */
  function LastEight<V>(es: seq<Entry<V>>): seq<Entry<V>> { if |es| <= 8 then es else es[|es| - 8..] }

  /** Stores under keys that are all new leave the last eight entries, oldest first. */
  lemma {:induction false} NewKeysStay<V>(es: seq<Entry<V>>, xs: seq<Entry<V>>)
    requires |es| <= 8 && DistinctKeys(es + xs)
    ensures PutAll(es, xs) == LastEight(es + xs)
    decreases |xs|
  {
    hide Find, Replace;
    if xs == [] {
      assert es + xs == es;
    } else {
      var x := xs[0];
      assert (es + xs)[|es|] == x;
      assert forall i :: 0 <= i < |es| ==> (es + xs)[i] == es[i];
      FindIsEntry(es, x.key);
      assert Entry(x.key, x.value) == x;
      var next := Put(es, x.key, x.value);
      var n := if |es| == 8 then 1 else 0;
      assert next == (es + [x])[n..];
      assert next + xs[1..] == (es + xs)[n..];
      assert forall i :: 0 <= i < |next + xs[1..]| ==> (next + xs[1..])[i] == (es + xs)[i + n];
      NewKeysStay(next, xs[1..]);
      assert LastEight(next + xs[1..]) == LastEight(es + xs);
    }
  }

  /** A store under a key that is held changes that entry in place and no other one. */
  lemma HeldKeyChanges<V>(es: seq<Entry<V>>, i: nat, value: V)
    requires i < |es| && Tidy(es)
    ensures Put(es, es[i].key, value) == es[i := Entry(es[i].key, value)]
  {
    hide Find, Replace;
    FindIsEntry(es, es[i].key);
    ReplaceAt(es, i, es[i].key, value);
  }

  lemma {:induction false} DropParts<V>(es: seq<Entry<V>>, key: string)
    requires DistinctKeys(es)
    ensures forall e :: e in Drop(es, key) ==> e in es && e.key != key
    ensures DistinctKeys(Drop(es, key))
    decreases |es|
  {
    if es == [] {
    } else {
      assert DistinctKeys(es[1..]) by {
        assert forall i :: 0 <= i < |es[1..]| ==> es[1..][i] == es[i + 1];
      }
      DropParts(es[1..], key);
      if es[0].key != key {
        var d := Drop(es[1..], key);
        forall j | 0 <= j < |d|
          ensures d[j].key != es[0].key
        {
          assert d[j] in es[1..];
          var k :| 0 <= k < |es[1..]| && es[1..][k] == d[j];
          assert es[k + 1] == d[j];
        }
      }
    }
  }

  // ---------------------------------------------------------------------------
  // Requests
  // ---------------------------------------------------------------------------

  type Small = n: nat | n < 10

  datatype Template = Template(source: string, bos: string, eos: string)

  /** What rendering a template reads. */
  datatype RenderInput = RenderInput(
    tmpl: Template, messages: string, tools: string, thinking: bool,
    extra: Option<string>, addGen: bool, addBos: bool, addEos: bool)

  /** What parser generation reads, besides the analysis of the source. */
  datatype ParserInput = ParserInput(
    source: string, gen: string, tools: string, toolChoice: Small, schema: string, parallel: bool, reasoning: Small)

  datatype Request = Request(
    tmpl: Template, messages: string, tools: string, hasTools: bool, toolChoice: Small, reasoning: Small,
    thinking: bool, addBos: bool, addEos: bool, addGen: bool, extra: string, schema: string, parallel: bool,
    grammar: string, forcePure: bool)

  const NoTools: Small := 2

  datatype Chat = Chat(prompt: string, gen: string, parser: string, thinking: string)

  datatype Outcome = Throws | Done(chat: Chat)

  /** The parts that are not modelled. */
  datatype Engine = Engine(
    render: RenderInput -> string,
    generate: ParserInput -> string,
    analyze: string -> string,
    pure: string -> string,
    isSpecial: string -> bool,
    special: (Request, string) -> Chat,
    cacheOn: bool)

  function CommonPrefix(a: string, b: string): (n: nat)
    ensures n <= |a| && n <= |b| && a[..n] == b[..n]
    ensures n < |a| && n < |b| ==> a[n] != b[n]
  {
    if a == [] || b == [] || a[0] != b[0] then 0
    else
      var n := CommonPrefix(a[1..], b[1..]);
      assert a[..n + 1] == [a[0]] + a[1..][..n] && b[..n + 1] == [b[0]] + b[1..][..n];
      n + 1
  }

  predicate EndsWith(s: string, t: string) { |t| <= |s| && s[|s| - |t|..] == t }

  /** A render without extra context, as the generation prompt is computed from. */
  function Plain(e: Engine, q: Request, addGen: bool): string {
    e.render(RenderInput(q.tmpl, q.messages, q.tools, q.thinking, None, addGen, q.addBos, q.addEos))
  }

  /** What asking for a generation prompt adds to the render. */
  function Diff(e: Engine, q: Request): string {
    Plain(e, q, true)[CommonPrefix(Plain(e, q, false), Plain(e, q, true))..]
  }

  function Prompt(e: Engine, q: Request): string {
    e.render(RenderInput(q.tmpl, q.messages, q.tools, q.thinking, Some(q.extra), q.addGen, q.addBos, q.addEos))
  }

  function Parser(e: Engine, q: Request, gen: string): string {
    e.generate(ParserInput(q.tmpl.source, gen, q.tools, q.toolChoice, q.schema, q.parallel, q.reasoning))
  }

  function Generic(e: Engine, q: Request, gen: string): Chat {
    Chat(Prompt(e, q), gen, Parser(e, q, gen), e.analyze(q.tmpl.source))
  }

  predicate Refused(q: Request) { q.hasTools && q.toolChoice != NoTools && q.grammar != "" }

  /** The outcome once the generation prompt is known, on the paths without a parser cache. */
  function Direct(e: Engine, q: Request, gen: string): Outcome {
    if Refused(q) then Throws
    else if q.forcePure then Done(Chat(Prompt(e, q), gen, e.pure(gen), ""))
    else if e.isSpecial(q.tmpl.source) then Done(e.special(q, gen).(gen := gen))
    else Done(Generic(e, q, gen))
  }

  /** A request without any cache. */
  function Uncached(e: Engine, q: Request): Outcome { Direct(e, q, Diff(e, q)) }

  // ---------------------------------------------------------------------------
  // Keys
  // ---------------------------------------------------------------------------

  const Sep1: char := 1 as char
  const Sep2: char := 2 as char

  function Digit(n: Small): string { [('0' as int + n) as char] }

  function Flag(b: bool): string { if b then "1" else "0" }

  function GenKey(q: Request): string {
    q.tmpl.source + [Sep1] + (q.tmpl.bos + [Sep1] + (q.tmpl.eos + [Sep1] + (Flag(q.thinking) + [Sep1] +
      (q.tools + [Sep1] + (Flag(q.addBos) + [Sep1] + Flag(q.addEos))))))
  }

  function ParserKey(q: Request, gen: string): string {
    q.tmpl.source + [Sep2] + (gen + [Sep2] + (q.tools + [Sep2] + (Digit(q.toolChoice) + [Sep2] +
      (q.schema + [Sep2] + (Flag(q.parallel) + [Sep2] + Digit(q.reasoning))))))
  }

  function IndexOf(s: string, c: char): nat {
    if s == [] || s[0] == c then 0 else 1 + IndexOf(s[1..], c)
  }

  lemma {:induction false} IndexOfSep(a: string, x: string, sep: char)
    requires sep !in a
    ensures IndexOf(a + [sep] + x, sep) == |a|
    decreases |a|
  {
    if a == [] {
    } else {
      IndexOfSep(a[1..], x, sep);
      assert (a + [sep] + x)[1..] == a[1..] + [sep] + x;
    }
  }

  lemma Cut(a: string, b: string, x: string, y: string, sep: char)
    requires sep !in a && sep !in b
    ensures a + [sep] + x == b + [sep] + y <==> a == b && x == y
  {
    var s, t := a + [sep] + x, b + [sep] + y;
    IndexOfSep(a, x, sep);
    IndexOfSep(b, y, sep);
    if s == t {
      assert s[..|a|] == a && t[..|b|] == b;
      assert s[|a| + 1..] == x && t[|b| + 1..] == y;
    }
  }

  /** Requests with the same key agree on everything that is rendered except the messages. */
  lemma GenKeyTells(q: Request, r: Request)
    requires Sep1 !in q.tmpl.source && Sep1 !in q.tmpl.bos && Sep1 !in q.tmpl.eos && Sep1 !in q.tools
    requires Sep1 !in r.tmpl.source && Sep1 !in r.tmpl.bos && Sep1 !in r.tmpl.eos && Sep1 !in r.tools
    ensures GenKey(q) == GenKey(r) <==>
            && q.tmpl == r.tmpl && q.tools == r.tools && q.thinking == r.thinking
            && q.addBos == r.addBos && q.addEos == r.addEos
  {
    hide IndexOf;
    var qEnd, rEnd := Flag(q.addBos) + [Sep1] + Flag(q.addEos), Flag(r.addBos) + [Sep1] + Flag(r.addEos);
    var qTools, rTools := q.tools + [Sep1] + qEnd, r.tools + [Sep1] + rEnd;
    var qThink, rThink := Flag(q.thinking) + [Sep1] + qTools, Flag(r.thinking) + [Sep1] + rTools;
    var qEos, rEos := q.tmpl.eos + [Sep1] + qThink, r.tmpl.eos + [Sep1] + rThink;
    var qBos, rBos := q.tmpl.bos + [Sep1] + qEos, r.tmpl.bos + [Sep1] + rEos;
    Cut(q.tmpl.source, r.tmpl.source, qBos, rBos, Sep1);
    Cut(q.tmpl.bos, r.tmpl.bos, qEos, rEos, Sep1);
    Cut(q.tmpl.eos, r.tmpl.eos, qThink, rThink, Sep1);
    Cut(Flag(q.thinking), Flag(r.thinking), qTools, rTools, Sep1);
    Cut(q.tools, r.tools, qEnd, rEnd, Sep1);
    Cut(Flag(q.addBos), Flag(r.addBos), Flag(q.addEos), Flag(r.addEos), Sep1);
  }

  /** Requests with the same parser key generate the same parser. */
  lemma ParserKeyTells(e: Engine, q: Request, g: string, r: Request, h: string)
    requires Sep2 !in q.tmpl.source && Sep2 !in g && Sep2 !in q.tools && Sep2 !in q.schema
    requires Sep2 !in r.tmpl.source && Sep2 !in h && Sep2 !in r.tools && Sep2 !in r.schema
    requires ParserKey(q, g) == ParserKey(r, h)
    ensures g == h && Parser(e, q, g) == Parser(e, r, h)
  {
    hide IndexOf;
    var qEnd, rEnd := Flag(q.parallel) + [Sep2] + Digit(q.reasoning), Flag(r.parallel) + [Sep2] + Digit(r.reasoning);
    var qSchema, rSchema := q.schema + [Sep2] + qEnd, r.schema + [Sep2] + rEnd;
    var qChoice, rChoice := Digit(q.toolChoice) + [Sep2] + qSchema, Digit(r.toolChoice) + [Sep2] + rSchema;
    var qTools, rTools := q.tools + [Sep2] + qChoice, r.tools + [Sep2] + rChoice;
    Cut(q.tmpl.source, r.tmpl.source, g + [Sep2] + qTools, h + [Sep2] + rTools, Sep2);
    Cut(g, h, qTools, rTools, Sep2);
    Cut(q.tools, r.tools, qChoice, rChoice, Sep2);
    Cut(Digit(q.toolChoice), Digit(r.toolChoice), qSchema, rSchema, Sep2);
    Cut(q.schema, r.schema, qEnd, rEnd, Sep2);
    Cut(Flag(q.parallel), Flag(r.parallel), Digit(q.reasoning), Digit(r.reasoning), Sep2);
    DigitTells(q.toolChoice, r.toolChoice);
    DigitTells(q.reasoning, r.reasoning);
  }

  lemma DigitTells(m: Small, n: Small)
    ensures Digit(m) == Digit(n) <==> m == n
  {}

  // ---------------------------------------------------------------------------
  // A request with the caches
  // ---------------------------------------------------------------------------

  datatype State = State(
    gens: seq<Entry<string>>, parsers: seq<Entry<Chat>>,
    genHits: nat, genMisses: nat, genStale: nat, parserHits: nat, parserMisses: nat)

  const Fresh := State([], [], 0, 0, 0, 0, 0)

  predicate Cacheable(e: Engine, q: Request) { e.cacheOn && q.addGen && !e.isSpecial(q.tmpl.source) }

  predicate GenHit(e: Engine, st: State, q: Request) { Cacheable(e, q) && Find(st.gens, GenKey(q)).Some? }

  /** The generation prompt the request starts with. */
  function FirstGen(e: Engine, st: State, q: Request): string {
    if GenHit(e, st, q) then Find(st.gens, GenKey(q)).value else Diff(e, q)
  }

  function AfterGen(e: Engine, st: State, q: Request): State {
    if !Cacheable(e, q) then st
    else if GenHit(e, st, q) then st.(genHits := st.genHits + 1)
    else st.(genMisses := st.genMisses + 1, gens := Put(st.gens, GenKey(q), Diff(e, q)))
  }

  function Cleared(c: Chat): Chat { c.(prompt := "", gen := "") }

  /** The chat with a cached parser where there is one. */
  function WithParser(e: Engine, st: State, q: Request, gen: string): Chat {
    var found := Find(st.parsers, ParserKey(q, gen));
    if e.cacheOn && found.Some? then
      found.value.(prompt := Prompt(e, q), gen := gen, thinking := e.analyze(q.tmpl.source))
    else Generic(e, q, gen)
  }

  function AfterParser(e: Engine, st: State, q: Request, gen: string): State {
    if !e.cacheOn then st
    else if Find(st.parsers, ParserKey(q, gen)).Some? then st.(parserHits := st.parserHits + 1)
    else
      st.(parserMisses := st.parserMisses + 1,
          parsers := Put(st.parsers, ParserKey(q, gen), Cleared(Generic(e, q, gen))))
  }

  /** A cached generation prompt that neither ends the prompt nor is what would be computed now. */
  predicate Stale(e: Engine, q: Request, gen: string) {
    gen != "" && !EndsWith(Prompt(e, q), gen) && Diff(e, q) != gen
  }

  function Renewed(e: Engine, st: State, q: Request): State {
    st.(genStale := st.genStale + 1,
        gens := Put(Drop(st.gens, GenKey(q)), GenKey(q), Diff(e, q)),
        parsers := Put(st.parsers, ParserKey(q, Diff(e, q)), Cleared(Generic(e, q, Diff(e, q)))))
  }

  predicate OnGenericPath(e: Engine, q: Request) { !Refused(q) && !q.forcePure && !e.isSpecial(q.tmpl.source) }

  function Cached(e: Engine, st: State, q: Request): (State, Outcome) {
    var gen, st1 := FirstGen(e, st, q), AfterGen(e, st, q);
    if !OnGenericPath(e, q) then (st1, Direct(e, q, gen))
    else
      var st2 := AfterParser(e, st1, q, gen);
      if GenHit(e, st, q) && Stale(e, q, gen) then (Renewed(e, st2, q), Done(Generic(e, q, Diff(e, q))))
      else (st2, Done(WithParser(e, st1, q, gen)))
  }

  function CachedAll(e: Engine, st: State, qs: seq<Request>): (r: (State, seq<Outcome>))
    ensures |r.1| == |qs|
    decreases |qs|
  {
    if qs == [] then (st, [])
    else
      var (st1, o) := Cached(e, st, qs[0]);
      var (st2, os) := CachedAll(e, st1, qs[1..]);
      (st2, [o] + os)
  }

  // ---------------------------------------------------------------------------
  // Invariants
  // ---------------------------------------------------------------------------

  predicate TidyState(st: State) { Tidy(st.gens) && Tidy(st.parsers) }

  /** Every kept generation prompt was computed, and every kept parser generated, for some request with its key. */
  ghost predicate GensComputed(e: Engine, st: State) {
    forall x :: x in st.gens ==> GenComputed(e, x)
  }

  ghost predicate GenComputed(e: Engine, x: Entry<string>) {
    exists q: Request :: !e.isSpecial(q.tmpl.source) && x == Entry(GenKey(q), Diff(e, q))
  }

  ghost predicate ParserComputed(e: Engine, x: Entry<Chat>) {
    exists q: Request, g: string {:trigger ParserKey(q, g)} ::
      x.key == ParserKey(q, g) && x.value == Cleared(Generic(e, q, g))
  }

  ghost predicate ParsersComputed(e: Engine, st: State) {
    forall x :: x in st.parsers ==> ParserComputed(e, x)
  }

  ghost predicate Sound(e: Engine, st: State) { TidyState(st) && GensComputed(e, st) && ParsersComputed(e, st) }

  lemma ParserPut(e: Engine, st: State, q: Request, gen: string)
    requires Tidy(st.parsers) && ParsersComputed(e, st)
    ensures var ps := Put(st.parsers, ParserKey(q, gen), Cleared(Generic(e, q, gen)));
            Tidy(ps) && forall x :: x in ps ==> ParserComputed(e, x)
  {
    hide Put, Find, Generic, ParserKey;
    PutKeepsTidy(st.parsers, ParserKey(q, gen), Cleared(Generic(e, q, gen)));
    assert ParserComputed(e, Entry(ParserKey(q, gen), Cleared(Generic(e, q, gen))));
  }

  lemma GenPut(e: Engine, gens: seq<Entry<string>>, q: Request)
    requires Tidy(gens) && (forall x :: x in gens ==> GenComputed(e, x)) && !e.isSpecial(q.tmpl.source)
    ensures var gs := Put(gens, GenKey(q), Diff(e, q));
            Tidy(gs) && forall x :: x in gs ==> GenComputed(e, x)
  {
    hide Put, Find, Diff, GenKey;
    PutKeepsTidy(gens, GenKey(q), Diff(e, q));
    assert GenComputed(e, Entry(GenKey(q), Diff(e, q)));
  }

  lemma DropTidy(gens: seq<Entry<string>>, key: string)
    requires Tidy(gens)
    ensures Tidy(Drop(gens, key)) && forall x :: x in Drop(gens, key) ==> x in gens
  {
    DropParts(gens, key);
  }

  /** A request keeps the caches tidy and true, and counts every lookup once. */
  lemma CachedKeepsSound(e: Engine, st: State, q: Request)
    requires Sound(e, st)
    ensures var u := Cached(e, st, q).0;
            && Sound(e, u)
            && u.genHits + u.genMisses == st.genHits + st.genMisses + (if Cacheable(e, q) then 1 else 0)
            && u.parserHits + u.parserMisses ==
               st.parserHits + st.parserMisses + (if e.cacheOn && OnGenericPath(e, q) then 1 else 0)
  {
    hide Put, Find, Drop, Generic, ParserKey, GenKey, Diff, Stale, Direct, Tidy, ParserComputed, GenComputed;
    var st1 := AfterGen(e, st, q);
    if Cacheable(e, q) {
      GenPut(e, st.gens, q);
    }
    assert Sound(e, st1);
    var gen := FirstGen(e, st, q);
    ParserPut(e, st1, q, gen);
    var st2 := AfterParser(e, st1, q, gen);
    assert Sound(e, st2);
    if Cacheable(e, q) {
      ParserPut(e, st2, q, Diff(e, q));
      DropTidy(st2.gens, GenKey(q));
      GenPut(e, Drop(st2.gens, GenKey(q)), q);
      assert Sound(e, Renewed(e, st2, q));
    }
  }

  // ---------------------------------------------------------------------------
  // What the caches change
  // ---------------------------------------------------------------------------

  /** The generation prompt depends on nothing but the fields of its key. */
  ghost predicate SuffixFixed(e: Engine) {
    forall q: Request, r: Request {:trigger GenKey(q), GenKey(r)} ::
      !e.isSpecial(q.tmpl.source) && !e.isSpecial(r.tmpl.source) && GenKey(q) == GenKey(r) ==> Diff(e, q) == Diff(e, r)
  }

  /** The parser depends on nothing but the fields of its key. */
  ghost predicate ParserFixed(e: Engine) {
    forall q: Request, g: string, r: Request, h: string {:trigger ParserKey(q, g), ParserKey(r, h)} ::
      ParserKey(q, g) == ParserKey(r, h) ==> Parser(e, q, g) == Parser(e, r, h)
  }

  function UncachedAll(e: Engine, qs: seq<Request>): (r: seq<Outcome>)
    ensures |r| == |qs|
  {
    if qs == [] then [] else [Uncached(e, qs[0])] + UncachedAll(e, qs[1..])
  }

  lemma {:induction false} FoundIn<V>(es: seq<Entry<V>>, key: string)
    ensures Find(es, key).Some? ==> Entry(key, Find(es, key).value) in es
  {
    FindIsEntry(es, key);
  }

  /** A cached parser is the parser that would be generated. */
  lemma ParserFromCache(e: Engine, st: State, q: Request, gen: string)
    requires ParsersComputed(e, st) && ParserFixed(e)
    ensures WithParser(e, st, q, gen) == Generic(e, q, gen)
  {
    hide Find, ParserKey, Prompt;
    FoundIn(st.parsers, ParserKey(q, gen));
    var found := Find(st.parsers, ParserKey(q, gen));
    if e.cacheOn && found.Some? {
      var x := Entry(ParserKey(q, gen), found.value);
      assert ParserComputed(e, x);
      var r: Request, g: string :| x.key == ParserKey(r, g) && x.value == Cleared(Generic(e, r, g));
      assert Parser(e, q, gen) == Parser(e, r, g);
    }
  }

  lemma GenFromCache(e: Engine, st: State, q: Request)
    requires GensComputed(e, st) && SuffixFixed(e)
    ensures FirstGen(e, st, q) == Diff(e, q)
  {
    hide Find, GenKey, Diff;
    FoundIn(st.gens, GenKey(q));
    if GenHit(e, st, q) {
      var x := Entry(GenKey(q), Find(st.gens, GenKey(q)).value);
      assert GenComputed(e, x);
      var r: Request :| !e.isSpecial(r.tmpl.source) && x == Entry(GenKey(r), Diff(e, r));
    }
  }

  /** With a fixed suffix the caches change no outcome. */
  lemma CachedIsUncached(e: Engine, st: State, q: Request)
    requires Sound(e, st) && SuffixFixed(e) && ParserFixed(e)
    ensures Cached(e, st, q).1 == Uncached(e, q)
  {
    hide Find, GenKey, Diff, Generic, Put, Drop, SuffixFixed, ParserFixed, Tidy;
    GenFromCache(e, st, q);
    SoundAfterGen(e, st, q);
    ParserFromCache(e, AfterGen(e, st, q), q, Diff(e, q));
  }

  lemma SoundAfterGen(e: Engine, st: State, q: Request)
    requires Sound(e, st)
    ensures Sound(e, AfterGen(e, st, q))
  {
    hide Find, GenKey, Diff, Put, Tidy, GenComputed, ParserComputed;
    if Cacheable(e, q) {
      GenPut(e, st.gens, q);
    }
  }

  lemma {:induction false} RunIsUncached(e: Engine, st: State, qs: seq<Request>)
    requires Sound(e, st) && SuffixFixed(e) && ParserFixed(e)
    ensures CachedAll(e, st, qs).1 == UncachedAll(e, qs)
    decreases |qs|
  {
    hide Cached, Uncached, Sound, SuffixFixed, ParserFixed;
    if qs == [] {
    } else {
      CachedIsUncached(e, st, qs[0]);
      CachedKeepsSound(e, st, qs[0]);
      RunIsUncached(e, Cached(e, st, qs[0]).0, qs[1..]);
    }
  }

  /** A request for pure content with a generation prompt. */
  function Pure(q: Request): Request { q.(addGen := true, forcePure := true, grammar := "") }

  lemma PureRuns(e: Engine, q: Request, r: Request)
    requires e.cacheOn && !e.isSpecial(q.tmpl.source) && !e.isSpecial(r.tmpl.source) && GenKey(q) == GenKey(r)
    ensures CachedAll(e, Fresh, [Pure(q), Pure(r)]).1[1] == Direct(e, Pure(r), Diff(e, q))
    ensures UncachedAll(e, [Pure(q), Pure(r)])[1] == Direct(e, Pure(r), Diff(e, r))
  {
    hide CommonPrefix;
    var a, b := Pure(q), Pure(r);
    assert GenKey(a) == GenKey(q) && GenKey(b) == GenKey(r) && Diff(e, a) == Diff(e, q) && Diff(e, b) == Diff(e, r);
    hide GenKey, Diff, Direct;
    assert [a, b][1..] == [b] && [b][1..] == [];
    var st := AfterGen(e, Fresh, a);
    assert st.gens == [Entry(GenKey(a), Diff(e, a))];
    assert FirstGen(e, st, b) == Diff(e, a);
    TwoRequests(e, a, b);
  }

  lemma TwoRequests(e: Engine, a: Request, b: Request)
    ensures CachedAll(e, Fresh, [a, b]).1[1] == Cached(e, Cached(e, Fresh, a).0, b).1
    ensures UncachedAll(e, [a, b])[1] == Uncached(e, b)
  {
    hide Cached, Uncached;
    assert [a, b][1..] == [b] && [b][1..] == [];
  }

  ghost predicate NeverChanges(e: Engine) { forall qs :: CachedAll(e, Fresh, qs).1 == UncachedAll(e, qs) }

  /** The caches change no outcome of any run exactly if the suffix is fixed by its key. */
  lemma CacheLaw(e: Engine)
    requires e.cacheOn && ParserFixed(e)
    ensures NeverChanges(e) <==> SuffixFixed(e)
  {
    hide CachedAll, UncachedAll, GenKey, Diff, ParserFixed;
    if SuffixFixed(e) {
      forall qs
        ensures CachedAll(e, Fresh, qs).1 == UncachedAll(e, qs)
      {
        RunIsUncached(e, Fresh, qs);
      }
    }
    if NeverChanges(e) {
      forall q: Request, r: Request | !e.isSpecial(q.tmpl.source) && !e.isSpecial(r.tmpl.source) && GenKey(q) == GenKey(r)
        ensures Diff(e, q) == Diff(e, r)
      {
        PureRuns(e, q, r);
        assert CachedAll(e, Fresh, [Pure(q), Pure(r)]).1 == UncachedAll(e, [Pure(q), Pure(r)]);
      }
    }
  }

  /** A generation prompt that a caller can rely on. */
  predicate Trusted(e: Engine, q: Request, gen: string) {
    gen == "" || EndsWith(Prompt(e, q), gen) || gen == Diff(e, q)
  }

  /**
   For any template, and in any state of the caches, the generation prompt is empty, ends the prompt
   or is what would be computed now, unless the request is for pure content and its key is kept: then
   it is the kept one, which nothing checks.
   */
  lemma AnyTemplate(e: Engine, st: State, q: Request)
    requires Cached(e, st, q).1.Done?
    ensures var gen := Cached(e, st, q).1.chat.gen;
            if q.forcePure && GenHit(e, st, q) then gen == Find(st.gens, GenKey(q)).value
            else Trusted(e, q, gen)
  {
    hide Find, GenKey, Diff, Put, Drop, Prompt, EndsWith, ParserKey;
  }

  /** On the generic path the parser is the one for the generation prompt that is returned. */
  lemma ParserBelongs(e: Engine, st: State, q: Request)
    requires Sound(e, st) && ParserFixed(e) && OnGenericPath(e, q)
    ensures var o := Cached(e, st, q).1; o.Done? && o.chat == Generic(e, q, o.chat.gen)
  {
    hide Find, GenKey, Diff, Put, Drop, ParserFixed, Tidy, Prompt, EndsWith, ParserKey;
    SoundAfterGen(e, st, q);
    ParserFromCache(e, AfterGen(e, st, q), q, FirstGen(e, st, q));
  }

  /** A generation prompt computed for one request can be relied on by every other one with its key. */
  ghost predicate KeysTrusted(e: Engine) {
    forall q: Request, r: Request {:trigger GenKey(q), GenKey(r)} ::
      !e.isSpecial(q.tmpl.source) && !e.isSpecial(r.tmpl.source) && GenKey(q) == GenKey(r) ==>
        Trusted(e, Pure(r), Diff(e, q))
  }

  predicate AllTrusted(e: Engine, qs: seq<Request>, os: seq<Outcome>)
    requires |qs| == |os|
  {
    forall k :: 0 <= k < |qs| && os[k].Done? ==> Trusted(e, qs[k], os[k].chat.gen)
  }

  ghost predicate AlwaysTrusted(e: Engine) { forall qs :: AllTrusted(e, qs, CachedAll(e, Fresh, qs).1) }

  lemma KeptIsTrusted(e: Engine, st: State, q: Request)
    requires GensComputed(e, st) && KeysTrusted(e) && Cached(e, st, q).1.Done?
    ensures Trusted(e, q, Cached(e, st, q).1.chat.gen)
  {
    hide Find, GenKey, Diff, Cached, Prompt, EndsWith;
    AnyTemplate(e, st, q);
    if q.forcePure && GenHit(e, st, q) {
      FoundIn(st.gens, GenKey(q));
      var x := Entry(GenKey(q), Find(st.gens, GenKey(q)).value);
      assert GenComputed(e, x);
      var p: Request :| !e.isSpecial(p.tmpl.source) && x == Entry(GenKey(p), Diff(e, p));
      assert Trusted(e, Pure(q), Diff(e, p));
      PureSame(e, q);
    }
  }

  lemma PureSame(e: Engine, q: Request)
    ensures GenKey(Pure(q)) == GenKey(q) && Diff(e, Pure(q)) == Diff(e, q)
    ensures q.addGen ==> Prompt(e, Pure(q)) == Prompt(e, q)
  {
    hide CommonPrefix;
  }

  lemma {:induction false} RunIsTrusted(e: Engine, st: State, qs: seq<Request>)
    requires Sound(e, st) && KeysTrusted(e)
    ensures AllTrusted(e, qs, CachedAll(e, st, qs).1)
    decreases |qs|
  {
    hide Cached, TidyState, GensComputed, ParsersComputed, KeysTrusted, Trusted;
    if qs == [] {
    } else {
      var o := Cached(e, st, qs[0]).1;
      if o.Done? {
        KeptIsTrusted(e, st, qs[0]);
      }
      CachedKeepsSound(e, st, qs[0]);
      var next := Cached(e, st, qs[0]).0;
      RunIsTrusted(e, next, qs[1..]);
      var rest := CachedAll(e, next, qs[1..]).1;
      assert CachedAll(e, st, qs).1 == [o] + rest;
      forall k | 0 < k < |qs| && rest[k - 1].Done?
        ensures Trusted(e, qs[k], rest[k - 1].chat.gen)
      {
        assert qs[k] == qs[1..][k - 1];
      }
    }
  }

  /**
   Every generation prompt of every run can be relied on exactly if requests with the same key can
   rely on each other's.
   */
  lemma TrustLaw(e: Engine)
    requires e.cacheOn
    ensures AlwaysTrusted(e) <==> KeysTrusted(e)
  {
    hide CachedAll, GenKey, Diff, Trusted;
    if KeysTrusted(e) {
      forall qs
        ensures AllTrusted(e, qs, CachedAll(e, Fresh, qs).1)
      {
        RunIsTrusted(e, Fresh, qs);
      }
    }
    if AlwaysTrusted(e) {
      forall q: Request, r: Request | !e.isSpecial(q.tmpl.source) && !e.isSpecial(r.tmpl.source) && GenKey(q) == GenKey(r)
        ensures Trusted(e, Pure(r), Diff(e, q))
      {
        PureRuns(e, q, r);
        var qs := [Pure(q), Pure(r)];
        assert AllTrusted(e, qs, CachedAll(e, Fresh, qs).1);
        assert qs[1] == Pure(r);
      }
    }
  }

  lemma {:induction false} PrefixOfItself(m: string, t: string)
    ensures CommonPrefix(m, m + t) == |m|
    decreases |m|
  {
    if m == [] {
    } else {
      PrefixOfItself(m[1..], t);
      assert (m + t)[1..] == m[1..] + t;
    }
  }

  /**
   A template whose suffix repeats the messages: after a request for "a", pure content for "bc" comes
   with the generation prompt of the first request.
   */
  lemma StalePureContent(e: Engine, q: Request)
    requires e.cacheOn && !e.isSpecial(q.tmpl.source)
    requires forall i: RenderInput :: e.render(i) == i.messages + if i.addGen then i.messages else ""
    ensures var a, b := Pure(q.(messages := "a")), Pure(q.(messages := "bc"));
            var o := Cached(e, Cached(e, Fresh, a).0, b).1;
            o.Done? && o.chat.gen == "a" && !Trusted(e, b, o.chat.gen)
  {
    hide CommonPrefix, Prompt, Diff, GenKey;
    var a, b := Pure(q.(messages := "a")), Pure(q.(messages := "bc"));
    EchoDiff(e, a);
    EchoDiff(e, b);
    SameGenKey(q, "a", "bc");
    assert AfterGen(e, Fresh, a).gens == [Entry(GenKey(a), "a")];
    assert FirstGen(e, AfterGen(e, Fresh, a), b) == "a";
    assert Prompt(e, b) == "bcbc" && "bcbc"[3..] == "c";
    assert !EndsWith(Prompt(e, b), "a") && Diff(e, b) == "bc";
    assert "c" != "a" && "bc" != "a" && "a" != "";
  }

  lemma SameGenKey(q: Request, m: string, n: string)
    ensures GenKey(Pure(q.(messages := m))) == GenKey(Pure(q.(messages := n)))
  {}

  lemma EchoDiff(e: Engine, q: Request)
    requires forall i: RenderInput :: e.render(i) == i.messages + if i.addGen then i.messages else ""
    ensures Diff(e, q) == q.messages && (q.addGen ==> Prompt(e, q) == q.messages + q.messages)
  {
    hide CommonPrefix;
    PrefixOfItself(q.messages, q.messages);
    assert q.messages + "" == q.messages;
  }

  lemma EndsWithIs(s: string, t: string)
    ensures EndsWith(s, t) <==> exists a :: s == a + t
  {
    if EndsWith(s, t) {
      assert s == s[..|s| - |t|] + t;
    }
  }

  /**
   What a request gives, whatever the caches hold: it is refused exactly for a grammar beside tools
   that may be called, the prompt is the template rendered now, with the extra context, and pure
   content and special templates come from their own parsers.
   */
  lemma RequestGives(e: Engine, st: State, q: Request)
    ensures Cached(e, st, q).1.Throws? <==> q.hasTools && q.toolChoice != 2 && q.grammar != ""
    ensures var o := Cached(e, st, q).1;
            o.Done? && (q.forcePure || !e.isSpecial(q.tmpl.source)) ==>
              o.chat.prompt == e.render(RenderInput(q.tmpl, q.messages, q.tools, q.thinking, Some(q.extra),
                                                    q.addGen, q.addBos, q.addEos))
    ensures var o := Cached(e, st, q).1;
            o.Done? && q.forcePure ==> o.chat.parser == e.pure(o.chat.gen) && o.chat.thinking == ""
    ensures var o := Cached(e, st, q).1;
            o.Done? && !q.forcePure && e.isSpecial(q.tmpl.source) ==>
              o.chat == e.special(q, o.chat.gen).(gen := o.chat.gen)
  {
    hide Find, GenKey, ParserKey, Diff, Put, Drop, EndsWith;
  }

  /**
   What a request on the generic path takes from the caches and leaves in them. It starts with the
   kept generation prompt or else the computed one; the parser is the kept one if there is one for
   that; what is returned is kept afterwards, and the counters say what was found and what was stale.
   */
  lemma RequestKeeps(e: Engine, st: State, q: Request)
    requires TidyState(st) && e.cacheOn && OnGenericPath(e, q)
    ensures var (st1, o) := Cached(e, st, q);
            var kept := if q.addGen then Find(st.gens, GenKey(q)) else None;
            var gen := if kept.Some? then kept.value else Diff(e, q);
            var held := Find(st.parsers, ParserKey(q, gen));
            && o.Done?
            && (kept.Some? && Stale(e, q, gen) <==> o.chat.gen != gen)
            && (o.chat.gen == gen && held.Some? ==> o.chat.parser == held.value.parser)
            && (o.chat.gen != gen || held.None? ==> o.chat.parser == Parser(e, q, o.chat.gen))
            && (q.addGen ==> Find(st1.gens, GenKey(q)) == Some(o.chat.gen))
            && Find(st1.parsers, ParserKey(q, o.chat.gen)).Some?
            && Find(st1.parsers, ParserKey(q, o.chat.gen)).value.parser == o.chat.parser
            && st1.parserHits == st.parserHits + (if held.Some? then 1 else 0)
            && st1.parserMisses == st.parserMisses + (if held.Some? then 0 else 1)
            && st1.genHits == st.genHits + (if kept.Some? then 1 else 0)
            && st1.genMisses == st.genMisses + (if q.addGen && kept.None? then 1 else 0)
            && st1.genStale == st.genStale + (if o.chat.gen != gen then 1 else 0)
  {
    hide Find, GenKey, ParserKey, Diff, Put, Drop, EndsWith, Tidy, Prompt, Parser;
    var gen, next := FirstGen(e, st, q), Diff(e, q);
    var st1 := AfterGen(e, st, q);
    PutKeepsTidy(st.gens, GenKey(q), next);
    DropTidy(st.gens, GenKey(q));
    PutKeepsTidy(Drop(st.gens, GenKey(q)), GenKey(q), next);
    PutKeepsTidy(st1.parsers, ParserKey(q, gen), Cleared(Generic(e, q, gen)));
    var st2 := AfterParser(e, st1, q, gen);
    PutKeepsTidy(st2.parsers, ParserKey(q, next), Cleared(Generic(e, q, next)));
  }

  /**
   A request that is repeated at once is answered from the caches: the same outcome, and one hit
   counted in each of the two.
   */
  lemma RepeatedRequest(e: Engine, st: State, q: Request)
    requires TidyState(st) && Cacheable(e, q) && OnGenericPath(e, q)
    ensures var (st1, o) := Cached(e, st, q);
            Cached(e, st1, q) == (st1.(genHits := st1.genHits + 1, parserHits := st1.parserHits + 1), o)
  {
    hide Find, GenKey, ParserKey, Diff, Put, Drop, EndsWith, Tidy, Prompt;
    var gen, next := FirstGen(e, st, q), Diff(e, q);
    var st1 := AfterGen(e, st, q);
    PutKeepsTidy(st.gens, GenKey(q), next);
    DropTidy(st.gens, GenKey(q));
    PutKeepsTidy(Drop(st.gens, GenKey(q)), GenKey(q), next);
    PutKeepsTidy(st1.parsers, ParserKey(q, gen), Cleared(Generic(e, q, gen)));
    var st2 := AfterParser(e, st1, q, gen);
    PutKeepsTidy(st2.parsers, ParserKey(q, next), Cleared(Generic(e, q, next)));
  }

  // ---------------------------------------------------------------------------
  // The caches as an object
  // ---------------------------------------------------------------------------

  class RequestCache {
    var analyses: map<string, string>
    var genLru: seq<Entry<string>>
    var parserLru: seq<Entry<Chat>>
    var nGenHits: nat
    var nGenMiss: nat
    var nGenVerifyFail: nat
    var nParserHits: nat
    var nParserMiss: nat

    constructor ()
      ensures Contents() == Fresh && analyses == map[] && genLru == [] && parserLru == []
      ensures nGenHits == nGenMiss == nGenVerifyFail == nParserHits == nParserMiss == 0
    {
      analyses, genLru, parserLru := map[], [], [];
      nGenHits, nGenMiss, nGenVerifyFail, nParserHits, nParserMiss := 0, 0, 0, 0, 0;
    }

    ghost function Contents(): State
      reads this
    {
      State(genLru, parserLru, nGenHits, nGenMiss, nGenVerifyFail, nParserHits, nParserMiss)
    }

    ghost predicate Analyzed(e: Engine)
      reads this`analyses
    {
      forall s :: s in analyses ==> analyses[s] == e.analyze(s)
    }

    /** The analysis of a template, computed once. */
    method Analysis(e: Engine, source: string) returns (a: string)
      requires Analyzed(e)
      modifies this`analyses
      ensures Analyzed(e) && a == e.analyze(source)
    {
      if source !in analyses {
        analyses := analyses[source := e.analyze(source)];
      }
      a := analyses[source];
    }

    method GenLookup(key: string) returns (found: Option<string>)
      modifies this`nGenHits, this`nGenMiss
      ensures found == Find(genLru, key)
      ensures Contents() == if found.Some? then old(Contents()).(genHits := old(nGenHits) + 1)
                            else old(Contents()).(genMisses := old(nGenMiss) + 1)
    {
      found := FirstWith(genLru, key);
      if found.Some? {
        nGenHits := nGenHits + 1;
      } else {
        nGenMiss := nGenMiss + 1;
      }
    }

    method GenStore(key: string, gen: string)
      modifies this`genLru
      ensures genLru == Put(old(genLru), key, gen)
    {
      genLru := Stored(genLru, key, gen);
    }

    method GenInvalidate(key: string)
      modifies this`genLru, this`nGenVerifyFail
      ensures genLru == Drop(old(genLru), key) && nGenVerifyFail == old(nGenVerifyFail) + 1
    {
      genLru := Without(genLru, key);
      nGenVerifyFail := nGenVerifyFail + 1;
    }

    method ParserLookup(key: string) returns (found: Option<Chat>)
      modifies this`nParserHits, this`nParserMiss
      ensures found == Find(parserLru, key)
      ensures Contents() == if found.Some? then old(Contents()).(parserHits := old(nParserHits) + 1)
                            else old(Contents()).(parserMisses := old(nParserMiss) + 1)
    {
      found := FirstWith(parserLru, key);
      if found.Some? {
        nParserHits := nParserHits + 1;
      } else {
        nParserMiss := nParserMiss + 1;
      }
    }

    method ParserStore(key: string, chat: Chat)
      modifies this`parserLru
      ensures parserLru == Put(old(parserLru), key, Chat("", "", chat.parser, chat.thinking))
    {
      parserLru := Stored(parserLru, key, Cleared(chat));
    }

    /** One request: the generation prompt, the prompt, the parser, and the check of a cached prompt. */
    method Apply(e: Engine, q: Request) returns (o: Outcome)
      requires Analyzed(e)
      modifies this
      ensures Analyzed(e) && (Contents(), o) == Cached(e, old(Contents()), q)
    {
      hide Find, GenKey, ParserKey, Diff, Put, Drop, Prompt;
      var cacheable := e.cacheOn && q.addGen && !e.isSpecial(q.tmpl.source);
      var hit, gen := false, "";
      if cacheable {
        var found := GenLookup(GenKey(q));
        if found.Some? {
          hit, gen := true, found.value;
        }
      }
      if !hit {
        gen := Diff(e, q);
        if cacheable {
          GenStore(GenKey(q), gen);
        }
      }
      assert gen == FirstGen(e, old(Contents()), q) && Contents() == AfterGen(e, old(Contents()), q);
      if Refused(q) {
        return Throws;
      }
      if q.forcePure {
        return Done(Chat(Prompt(e, q), gen, e.pure(gen), ""));
      }
      if e.isSpecial(q.tmpl.source) {
        return Done(e.special(q, gen).(gen := gen));
      }
      o := GenericPath(e, q, gen, hit);
    }

    method GenericPath(e: Engine, q: Request, gen: string, fromCache: bool) returns (o: Outcome)
      requires Analyzed(e)
      modifies this
      ensures Analyzed(e)
      ensures var st := old(Contents());
              (Contents(), o) ==
              if fromCache && Stale(e, q, gen) then
                (Renewed(e, AfterParser(e, st, q, gen), q), Done(Generic(e, q, Diff(e, q))))
              else (AfterParser(e, st, q, gen), Done(WithParser(e, st, q, gen)))
    {
      hide Find, GenKey, ParserKey, Diff, Put, Drop, Prompt, EndsWith;
      var analysis := e.analyze(q.tmpl.source);
      if e.cacheOn {
        analysis := Analysis(e, q.tmpl.source);
      }
      var prompt := Prompt(e, q);
      var cached: Option<Chat> := None;
      if e.cacheOn {
        cached := ParserLookup(ParserKey(q, gen));
      }
      var chat := if cached.Some? then cached.value else Chat("", "", Parser(e, q, gen), "");
      chat := chat.(thinking := analysis, gen := gen, prompt := prompt);
      if cached.None? && e.cacheOn {
        ParserStore(ParserKey(q, gen), chat);
      }
      if fromCache && !(gen == "" || EndsWith(prompt, gen)) {
        var renewed := Diff(e, q);
        if renewed != gen {
          GenInvalidate(GenKey(q));
          GenStore(GenKey(q), renewed);
          chat := Chat(prompt, renewed, Parser(e, q, renewed), analysis);
          ParserStore(ParserKey(q, renewed), chat);
        }
      }
      o := Done(chat);
    }
  }

  lemma FindStep<V>(es: seq<Entry<V>>, i: nat, key: string)
    requires i < |es|
    ensures Find(es[i..], key) == if es[i].key == key then Some(es[i].value) else Find(es[i + 1..], key)
  {
    assert es[i..][1..] == es[i + 1..];
  }

  method FirstWith<V>(es: seq<Entry<V>>, key: string) returns (found: Option<V>)
    ensures found == Find(es, key)
  {
    assert es[0..] == es;
    for i := 0 to |es|
      invariant Find(es, key) == Find(es[i..], key)
    {
      FindStep(es, i, key);
      if es[i].key == key {
        return Some(es[i].value);
      }
    }
    found := None;
  }

  lemma {:induction false} ReplaceAt<V>(es: seq<Entry<V>>, i: nat, key: string, value: V)
    requires i < |es| && es[i].key == key && forall j :: 0 <= j < i ==> es[j].key != key
    ensures Replace(es, key, value) == es[i := Entry(key, value)]
    decreases i
  {
    if i == 0 {
    } else {
      ReplaceAt(es[1..], i - 1, key, value);
    }
  }

  method Stored<V>(es: seq<Entry<V>>, key: string, value: V) returns (r: seq<Entry<V>>)
    ensures r == Put(es, key, value)
  {
    assert es[0..] == es;
    for i := 0 to |es|
      invariant Find(es, key) == Find(es[i..], key)
      invariant forall j :: 0 <= j < i ==> es[j].key != key
    {
      FindStep(es, i, key);
      if es[i].key == key {
        ReplaceAt(es, i, key, value);
        return es[i := Entry(key, value)];
      }
    }
    r := es + [Entry(key, value)];
    if |r| > Capacity {
      r := r[1..];
    }
  }

  lemma {:induction false} DropLast<V>(es: seq<Entry<V>>, x: Entry<V>, key: string)
    ensures Drop(es + [x], key) == Drop(es, key) + if x.key == key then [] else [x]
    decreases |es|
  {
    if es == [] {
      assert es + [x] == [x];
    } else {
      DropLast(es[1..], x, key);
      assert (es + [x])[1..] == es[1..] + [x];
    }
  }

  method Without<V>(es: seq<Entry<V>>, key: string) returns (r: seq<Entry<V>>)
    ensures r == Drop(es, key)
  {
    r := [];
    for i := 0 to |es|
      invariant r == Drop(es[..i], key)
    {
      assert es[..i + 1] == es[..i] + [es[i]];
      DropLast(es[..i], es[i], key);
      if es[i].key != key {
        r := r + [es[i]];
      }
    }
    assert es[..|es|] == es;
  }
}
