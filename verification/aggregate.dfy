/** The aggregate table the script keeps in its global `data` dictionary:
    variant -> benchmark -> optimization -> test index -> elapsed time.
    Python dictionaries are mutated in place; here every operation returns
    the new table. */
module Aggregate {
  import opened Options

  /** An elapsed time as the parsers store it: the full-testbench parser
      stores a Python float, the fast-testbench parser a Python int. */
  datatype Elapsed = FloatNs(real_ns: real) | IntNs(int_ns: int)

  /** Test index -> elapsed time, for one (variant, benchmark, optimization). */
  type Row = map<nat, Elapsed>

  type Table = map<string, map<string, map<string, Row>>>

  /** The exceptions the script never catches; each one ends the run. */
  datatype Failure =
    | MalformedName(name: string)
    | MissingPath(variant: string, benchmark: string, optimization: string)

  /** Whether `data[v][b][o]` exists. */
  predicate HasPath(t: Table, v: string, b: string, o: string) {
    v in t && b in t[v] && o in t[v][b]
  }

  /** `data[v][b][o][i]`, or `None` where any level is missing. */
  function Lookup(t: Table, v: string, b: string, o: string, i: nat): Option<Elapsed> {
    if HasPath(t, v, b, o) && i in t[v][b][o] then Some(t[v][b][o][i]) else None
  }

  /** The two tables have the same keys at the variant, benchmark and
      optimization levels; only rows may differ. */
  predicate SameShape(t: Table, u: Table) {
    && t.Keys == u.Keys
    && (forall v :: v in t && v in u ==> t[v].Keys == u[v].Keys)
    && (forall v, b :: v in t && v in u && b in t[v] && b in u[v] ==> t[v][b].Keys == u[v][b].Keys)
  }

  /** The three `if not ... in ...: ... = {}` statements: create whichever
      of the three levels is missing, keep everything that exists. */
  function EnsurePath(t: Table, v: string, b: string, o: string): (r: Table)
    ensures HasPath(r, v, b, o)
    ensures forall v', b', o' :: HasPath(r, v', b', o') <==> HasPath(t, v', b', o') || (v', b', o') == (v, b, o)
    ensures forall v', b', o', i: nat :: Lookup(r, v', b', o', i) == Lookup(t, v', b', o', i)
    ensures r.Keys == t.Keys + {v}
    ensures forall v' :: v' in t && v' != v ==> r[v'] == t[v']
    ensures r[v].Keys == (if v in t then t[v].Keys else {}) + {b}
    ensures HasPath(t, v, b, o) ==> r == t
  {
    var variants := if v in t then t[v] else map[];
    var benchmarks := if b in variants then variants[b] else map[];
    var row := if o in benchmarks then benchmarks[o] else map[];
    var r := t[v := variants[b := benchmarks[o := row]]];
    assert HasPath(t, v, b, o) ==> r == t by {
      if HasPath(t, v, b, o) {
        assert benchmarks[o := row] == benchmarks;
        assert variants[b := benchmarks] == variants;
      }
    }
    r
  }

  /** `data[v][b][o][i] = x`: a `KeyError` when the path is missing,
      otherwise exactly that one entry changes. */
  function Write(t: Table, v: string, b: string, o: string, i: nat, x: Elapsed): (r: Result<Table, Failure>)
    ensures r.Ok? <==> HasPath(t, v, b, o)
    ensures r.Err? ==> r.error == MissingPath(v, b, o)
    ensures r.Ok? ==> Lookup(r.value, v, b, o, i) == Some(x)
    ensures r.Ok? ==> forall v', b', o', i': nat ::
              (v', b', o', i') != (v, b, o, i) ==> Lookup(r.value, v', b', o', i') == Lookup(t, v', b', o', i')
    ensures r.Ok? ==> SameShape(r.value, t)
    ensures r.Ok? ==> forall v', b', o' :: HasPath(r.value, v', b', o') <==> HasPath(t, v', b', o')
  {
    if HasPath(t, v, b, o) then Ok(t[v := t[v][b := t[v][b][o := t[v][b][o][i := x]]]])
    else Err(MissingPath(v, b, o))
  }
}
