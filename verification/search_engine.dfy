/**
 The search guard of `searchEngine.js`: one module-level engine instance,
 created and loaded at most once by `initSearch`, and a `search` that asks
 the engine only once it exists and only for a non-empty query. The engine
 itself (its index, its ranking, the way it fails) is not modelled: it is
 a parameter, and the model records which calls reach it.
 */
module SearchEngine {

  /** The options the engine is constructed with. */
  datatype Options = Options(
    fields: seq<string>,
    storeFields: seq<string>,
    boost: map<string, nat>,
    fuzzy: real,
    prefix: bool,
    combineWith: string)

  /** The one configuration the module uses. */
  const Config := Options(
    ["title", "content", "category"],
    ["title", "path", "category"],
    map["title" := 2, "category" := 1, "content" := 1],
    0.2,
    true,
    "AND")

  /** An engine instance: how it was configured, what it was given to index,
      and whether indexing threw. */
  datatype Index<Doc> = Index(options: Options, fed: seq<Doc>, failed: bool)

  /** The module's one variable: no instance yet, or the instance. */
  datatype State<Doc> = Uninitialized | Initialized(index: Index<Doc>)

  /** What reaches the engine: its construction, the bulk load, a query. */
  datatype Call<Doc> = Construct(options: Options) | AddAll(docs: seq<Doc>) | Query(q: string)

  /** `initSearch` with `data` as the bundled index data and `fails` telling
      whether `addAll` throws. The new instance is stored before `addAll`
      runs, and a throw is caught, so the module is initialized either way. */
  function InitSearch<Doc>(st: State<Doc>, data: seq<Doc>, fails: bool): (r: (State<Doc>, seq<Call<Doc>>))
    ensures r.0.Initialized?
    ensures st.Initialized? ==> r == (st, [])
    ensures st.Uninitialized? ==> r.0.index == Index(Config, data, fails)
    ensures st.Uninitialized? ==> r.1 == [Construct(Config), AddAll(data)]
  {
    match st
    case Initialized(_) => (st, [])
    case Uninitialized =>
      var index := Index(Config, data, fails);
      (Initialized(index), [Construct(index.options), AddAll(index.fed)])
  }

  /** `search`: nothing before initialisation, nothing for an empty query,
      and otherwise exactly what the engine answers. Returns the results and
      the calls that reached the engine. */
  function Search<Doc, Hit>(st: State<Doc>, q: string, engine: (Index<Doc>, string) -> seq<Hit>): (r: (seq<Hit>, seq<Call<Doc>>))
    ensures r.1 == [] <==> (st.Uninitialized? || q == [])
    ensures r.1 == [] ==> r.0 == []
    ensures r.1 != [] ==> st.Initialized? && r == (engine(st.index, q), [Query(q)])
  {
    if st.Uninitialized? then ([], [])
    else if q == [] then ([], [])
    else (engine(st.index, q), [Query(q)])
  }

  /** A second `initSearch` changes nothing and calls nothing. */
  lemma InitIdempotent<Doc>(st: State<Doc>, data: seq<Doc>, fails: bool, data': seq<Doc>, fails': bool)
    ensures var once := InitSearch(st, data, fails);
            InitSearch(once.0, data', fails') == (once.0, [])
  {
  }

  /** A failed load still leaves an instance in place, so the failure is
      never retried. */
  lemma FailedLoadStays<Doc>(data: seq<Doc>, data': seq<Doc>, fails': bool)
    ensures var once := InitSearch(Uninitialized, data, true);
            once.0 == Initialized(Index(Config, data, true)) && InitSearch(once.0, data', fails').1 == []
  {
  }

  /** The engine indexes title, content and category and returns title,
      path and category. */
  lemma ConfiguredFields()
    ensures (set f | f in Config.fields) == {"title", "content", "category"}
    ensures (set f | f in Config.storeFields) == {"title", "path", "category"}
    ensures Config.boost["title"] > Config.boost["content"] && Config.boost["title"] > Config.boost["category"]
  {
    assert Config.fields[0] == "title" && Config.fields[1] == "content" && Config.fields[2] == "category";
    assert Config.storeFields[0] == "title" && Config.storeFields[1] == "path" && Config.storeFields[2] == "category";
  }

  /** The operations a page can perform, in order. */
  datatype Op = InitOp | SearchOp(q: string)

  /** A sequence of operations from a given state: the final state, the
      calls that reached the engine, and the answer to each search. */
  datatype Outcome<Doc, Hit> = Outcome(state: State<Doc>, calls: seq<Call<Doc>>, answers: seq<seq<Hit>>)

  function Run<Doc, Hit>(st: State<Doc>, ops: seq<Op>, data: seq<Doc>, fails: bool,
                         engine: (Index<Doc>, string) -> seq<Hit>): (r: Outcome<Doc, Hit>)
    decreases |ops|
  {
    if ops == [] then Outcome(st, [], [])
    else
      match ops[0]
      case InitOp =>
        var (st', calls) := InitSearch(st, data, fails);
        var rest := Run(st', ops[1..], data, fails, engine);
        Outcome(rest.state, calls + rest.calls, rest.answers)
      case SearchOp(q) =>
        var (hits, calls) := Search(st, q, engine);
        var rest := Run(st, ops[1..], data, fails, engine);
        Outcome(rest.state, calls + rest.calls, [hits] + rest.answers)
  }

  /** The number of times the engine is constructed. */
  function Constructions<Doc>(calls: seq<Call<Doc>>): nat {
    if calls == [] then 0
    else (if calls[0].Construct? then 1 else 0) + Constructions(calls[1..])
  }

  lemma {:induction false} ConstructionsAppend<Doc>(a: seq<Call<Doc>>, b: seq<Call<Doc>>)
    ensures Constructions(a + b) == Constructions(a) + Constructions(b)
  {
    if a != [] {
      assert (a + b)[1..] == a[1..] + b;
      ConstructionsAppend(a[1..], b);
    } else {
      assert a + b == b;
    }
  }

  /** Whatever the page does, the engine is constructed once if it was ever
      initialized and never otherwise, and an uninitialized module stays so
      until the first `initSearch`. */
  lemma {:induction false} ConstructedAtMostOnce<Doc, Hit>(st: State<Doc>, ops: seq<Op>, data: seq<Doc>, fails: bool,
                                                         engine: (Index<Doc>, string) -> seq<Hit>)
    ensures var r := Run(st, ops, data, fails, engine);
            Constructions(r.calls) == (if st.Uninitialized? && InitOp in ops then 1 else 0)
            && (r.state.Initialized? <==> st.Initialized? || InitOp in ops)
    decreases |ops|
  {
    if ops != [] {
      var rest := ops[1..];
      assert ops == [ops[0]] + rest;
      match ops[0]
      case InitOp =>
        var (st', calls) := InitSearch(st, data, fails);
        ConstructedAtMostOnce(st', rest, data, fails, engine);
        ConstructionsAppend(calls, Run(st', rest, data, fails, engine).calls);
        assert calls == [] || calls == [Construct(Config), AddAll(data)];
      case SearchOp(q) =>
        var (hits, calls) := Search(st, q, engine);
        ConstructedAtMostOnce(st, rest, data, fails, engine);
        ConstructionsAppend(calls, Run(st, rest, data, fails, engine).calls);
        assert calls == [] || calls == [Query(q)];
    }
  }

  /** Searching never changes the state: a run of searches alone answers
      each one from the same instance, or with nothing before initialisation. */
  lemma {:induction false} SearchesOnly<Doc, Hit>(st: State<Doc>, ops: seq<Op>, data: seq<Doc>, fails: bool,
                                                engine: (Index<Doc>, string) -> seq<Hit>)
    requires forall i :: 0 <= i < |ops| ==> ops[i].SearchOp?
    ensures var r := Run(st, ops, data, fails, engine);
            r.state == st && |r.answers| == |ops|
            && forall i :: 0 <= i < |ops| ==> r.answers[i] == Search(st, ops[i].q, engine).0
    decreases |ops|
  {
    if ops != [] {
      SearchesOnly(st, ops[1..], data, fails, engine);
    }
  }
}
