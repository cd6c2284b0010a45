/** How the script reads (variant, benchmark, optimization) out of each
    command-line argument: `<variant>_<benchmark>_<optimization>.<ext>`. */
module Naming {
  import opened Options
  import opened Text

  datatype Descriptor = Descriptor(variant: string, benchmark: string, optimization: string)

  /** `name.split("_")[0]`, `name.split("_")[1]` and
      `name.split("_")[2].split(".")[0]`; `None` stands for the `IndexError`
      raised when the name has fewer than three `_`-separated segments. */
  function Describe(name: string): Option<Descriptor> {
    var parts := SplitOn(name, '_');
    if |parts| < 3 then None
    else Some(Descriptor(parts[0], parts[1], SplitOn(parts[2], '.')[0]))
  }

  /** The script finds a descriptor exactly when the name has at least two
      `_`; the three parts hold no `_`, the optimization holds no `.`, and
      joined again with `_` they are a prefix of the name. */
  lemma {:induction false} DescribeAccepts(name: string)
    ensures Describe(name).Some? <==> multiset(name)['_'] >= 2
    ensures Describe(name).Some? ==>
              var d := Describe(name).value;
              && '_' !in d.variant && '_' !in d.benchmark && '_' !in d.optimization
              && '.' !in d.optimization
              && d.variant + "_" + d.benchmark + "_" + d.optimization <= name
  {
    SplitOnCount(name, '_');
    if |SplitOn(name, '_')| >= 3 {
      DescriptorFacts(name);
    }
  }

  lemma {:induction false} DescriptorFacts(name: string)
    requires |SplitOn(name, '_')| >= 3
    ensures var parts := SplitOn(name, '_');
            var o := SplitOn(parts[2], '.')[0];
            && parts[0] + "_" + parts[1] + "_" + o <= name
            && '_' !in o
  {
    var parts := SplitOn(name, '_');
    var pieces := SplitOn(parts[2], '.');
    JoinWithStartsWithFirst(pieces, '.');
    JoinWithStartsWithFirst(parts[2..], '_');
    assert name == parts[0] + "_" + (parts[1] + "_" + JoinWith(parts[2..], '_')) by {
      assert name == JoinWith(parts, '_');
      assert JoinWith(parts, '_') == parts[0] + "_" + JoinWith(parts[1..], '_');
      assert parts[1..][1..] == parts[2..];
      assert JoinWith(parts[1..], '_') == parts[1] + "_" + JoinWith(parts[2..], '_');
    }
    PrefixOfPrefix(pieces[0], parts[2], JoinWith(parts[2..], '_'));
    PrefixExtend(parts[0] + "_" + parts[1] + "_", pieces[0], JoinWith(parts[2..], '_'));
    assert parts[0] + "_" + (parts[1] + "_" + JoinWith(parts[2..], '_'))
        == parts[0] + "_" + parts[1] + "_" + JoinWith(parts[2..], '_');
    NotInPrefix(pieces[0], parts[2], '_');
  }

  lemma {:induction false} PrefixOfPrefix(a: string, b: string, c: string)
    requires a <= b && b <= c
    ensures a <= c
  {
  }

  lemma {:induction false} PrefixExtend(p: string, a: string, b: string)
    requires a <= b
    ensures p + a <= p + b
  {
    assert p + b == (p + a) + b[|a|..];
  }

  lemma {:induction false} NotInPrefix(a: string, b: string, c: char)
    requires a <= b && c !in b
    ensures c !in a
  {
    assert forall k :: 0 <= k < |a| ==> a[k] == b[k];
  }

  /** The first `sep`-piece of `p + rest`, for `p` free of `sep`, is `p`
      followed by the first piece of `rest`. */
  lemma {:induction false} FirstPiece(p: string, sep: char, rest: string)
    requires sep !in p
    ensures SplitOn(p + rest, sep)[0] == p + SplitOn(rest, sep)[0]
    decreases |p|
  {
    if |p| > 0 {
      var s := p + rest;
      assert s[1..] == p[1..] + rest;
      assert sep !in p[1..];
      FirstPiece(p[1..], sep, rest);
      var r := SplitOn(s[1..], sep);
      assert r[0] == p[1..] + SplitOn(rest, sep)[0];
      assert s[0] == p[0] && s[0] != sep;
      assert SplitOn(s, sep)[0] == [s[0]] + r[0];
      assert [p[0]] + (p[1..] + SplitOn(rest, sep)[0]) == p + SplitOn(rest, sep)[0];
    } else {
      assert p + rest == rest;
    }
  }

  /** A name built by the convention `<variant>_<benchmark>_<optimization>`,
      followed by nothing, by an extension `.ext...` or by further
      `_`-segments, yields exactly its three parts. */
  lemma {:induction false} Composed(v: string, b: string, o: string, tail: string)
    requires '_' !in v && '_' !in b && '_' !in o && '.' !in o
    requires tail == "" || tail[0] == '.' || tail[0] == '_'
    ensures Describe(v + "_" + b + "_" + o + tail) == Some(Descriptor(v, b, o))
  {
    var name := v + "_" + b + "_" + o + tail;
    assert name == v + ['_'] + (b + ['_'] + (o + tail));
    SplitOnLeading(v, '_', b + ['_'] + (o + tail));
    SplitOnLeading(b, '_', o + tail);
    var parts := SplitOn(name, '_');
    assert parts == [v] + ([b] + SplitOn(o + tail, '_'));
    assert parts[0] == v && parts[1] == b;
    assert parts[2] == SplitOn(o + tail, '_')[0];
    FirstPiece(o, '_', tail);
    var w := SplitOn(tail, '_')[0];
    assert parts[2] == o + w;
    FirstPiece(o, '.', w);
    assert SplitOn(w, '.')[0] == "" by {
      if tail == "" {
      } else if tail[0] == '_' {
        assert tail == [] + ['_'] + tail[1..];
        SplitOnLeading([], '_', tail[1..]);
      } else {
        assert tail == ['.'] + tail[1..];
        FirstPiece(['.'], '_', tail[1..]);
        assert w == ['.'] + SplitOn(tail[1..], '_')[0];
        assert w == [] + ['.'] + SplitOn(tail[1..], '_')[0];
        SplitOnLeading([], '.', SplitOn(tail[1..], '_')[0]);
      }
    }
    assert SplitOn(parts[2], '.')[0] == o;
  }

  /** A conventional name: `full_adder_O2.log`. */
  lemma ExampleName()
    ensures Describe("full_adder_O2.log") == Some(Descriptor("full", "adder", "O2"))
  {
    assert "full_adder_O2.log" == "full" + "_" + "adder" + "_" + "O2" + ".log";
    Composed("full", "adder", "O2", ".log");
  }

  /** A name with a single `_` has no descriptor. */
  lemma {:induction false} SingleSeparator(v: string, rest: string)
    requires '_' !in v && '_' !in rest
    ensures Describe(v + "_" + rest) == None
  {
    var name := v + "_" + rest;
    assert name == v + ['_'] + rest;
    SplitOnLeading(v, '_', rest);
    SplitOnWithoutSep(rest, '_');
    assert |SplitOn(name, '_')| == 2;
  }

  /** A name with a single `_` makes the script fail. */
  lemma ExampleShortName()
    ensures Describe("full_adder.log") == None
  {
    assert "full_adder.log" == "full" + "_" + "adder.log";
    SingleSeparator("full", "adder.log");
  }
}
