/** What `parseResults` (full testbench) and `parseFastResults` (fast
    testbench) do with one whitespace-split log line: keep it only when the
    second word is the testbench's marker, read the test index from the
    last word in base 16, then read the elapsed time from a fixed word.
    Every `except: continue` of the script is one of the rejection reasons
    of `LineOutcome`. */
module LineClassifier {
  import opened Options
  import opened Text
  import opened Numerals
  import opened Aggregate

  /** Which of the two parsing functions handles a file. */
  datatype Testbench = Full | Fast

  const FullMarker: string := "testbench.DUT.MIPS_CORE.ALU"
  const FastMarker: string := "fast_testbench.MIPS_CORE.ALU"

  function Marker(tb: Testbench): string {
    match tb
    case Full => FullMarker
    case Fast => FastMarker
  }

  /** The top-level key each parsing function writes under. */
  function TableKey(tb: Testbench): string {
    match tb
    case Full => "full"
    case Fast => "fast"
  }

  /** The value `nanoseconds` holds before any line is read. */
  function InitialElapsed(tb: Testbench): Elapsed {
    match tb
    case Full => FloatNs(0.0)
    case Fast => IntNs(0)
  }

  /** The fate of one line. `BadTime` keeps the index because the script
      has already assigned `testnumber` when the time field fails. */
  datatype LineOutcome =
    | Unmarked                              // fewer than two words, or the wrong marker
    | BadIndex                              // the last word is not base 16
    | BadTime(index: nat)                   // no readable elapsed time
    | Accepted(index: nat, time: Elapsed)   // written to the table

  /** Python's `s[1:]`. */
  function DropFirst(s: string): string {
    if |s| == 0 then s else s[1..]
  }

  /** Python's `s[:-1]`. */
  function DropLast(s: string): string {
    if |s| == 0 then s else s[..|s| - 1]
  }

  /** The elapsed-time field. Full: `float(words[2][1:])`, and if that
      raises, `float(words[3])`. Fast: `int(words[3][:-1])`. A missing word
      is an `IndexError`, caught like the conversion errors. */
  function ReadTime(tb: Testbench, words: seq<string>): Option<Elapsed> {
    match tb
    case Full =>
      var first := if |words| > 2 then ParseFloat(DropFirst(words[2])) else None;
      var second := if |words| > 3 then ParseFloat(words[3]) else None;
      (match first.OrElse(second)
       case Some(x) => Some(FloatNs(x))
       case None => None)
    case Fast =>
      (match (if |words| > 3 then ParseInt(DropLast(words[3])) else None)
       case Some(n) => Some(IntNs(n))
       case None => None)
  }

  /** One line of either parsing function, up to the table write. */
  function Classify(tb: Testbench, words: seq<string>): (r: LineOutcome)
    ensures r.Unmarked? <==> !(|words| >= 2 && words[1] == Marker(tb))
    ensures r.BadIndex? <==> |words| >= 2 && words[1] == Marker(tb) && ParseHex(words[|words| - 1]).None?
    ensures (r.BadTime? || r.Accepted?) ==> ParseHex(words[|words| - 1]) == Some(r.index)
    ensures r.Accepted? ==> ReadTime(tb, words) == Some(r.time)
    ensures r.BadTime? ==> ReadTime(tb, words).None?
  {
    if |words| < 2 || words[1] != Marker(tb) then Unmarked
    else
      match ParseHex(words[|words| - 1])
      case None => BadIndex
      case Some(i) =>
        match ReadTime(tb, words)
        case None => BadTime(i)
        case Some(x) => Accepted(i, x)
  }

  /** A raw log line, split the way `line.split()` splits it. */
  function Outcome(tb: Testbench, line: string): LineOutcome {
    Classify(tb, Words(line))
  }

  /** The index a line assigns to `testnumber`, if it gets that far. */
  function IndexOf(out: LineOutcome): Option<nat> {
    match out
    case BadTime(i) => Some(i)
    case Accepted(i, _) => Some(i)
    case _ => None
  }

  // ---------------------------------------------------------------------
  // Which lines are kept, and which fields are read

  /** Neither marker reads as a hexadecimal number. */
  lemma MarkersAreNotHex()
    ensures ParseHex(FullMarker).None?
    ensures ParseHex(FastMarker).None?
  {
    assert !IsHexDigit(FullMarker[0]);
    assert FullMarker[1] != 'x' && FullMarker[1] != 'X';
    assert !IsHexDigit(FastMarker[2]);
    assert FastMarker[1] != 'x' && FastMarker[1] != 'X';
  }

  /** With exactly two words the last word is the marker itself, so no
      line of two words ever reaches the time field. */
  lemma {:induction false} TwoWordsNeverIndexed(tb: Testbench, words: seq<string>)
    requires |words| == 2
    ensures Classify(tb, words) == Unmarked || Classify(tb, words) == BadIndex
  {
    MarkersAreNotHex();
  }

  /** The full parser prefers the third word without its first character
      and falls back to the fourth word only when that fails. */
  lemma {:induction false} FullTimeFallback(words: seq<string>, i: nat)
    requires |words| >= 2 && words[1] == FullMarker
    requires ParseHex(words[|words| - 1]) == Some(i)
    ensures |words| > 2 && ParseFloat(DropFirst(words[2])).Some? ==>
              Classify(Full, words) == Accepted(i, FloatNs(ParseFloat(DropFirst(words[2])).value))
    ensures (|words| <= 2 || ParseFloat(DropFirst(words[2])).None?) && |words| > 3 && ParseFloat(words[3]).Some? ==>
              Classify(Full, words) == Accepted(i, FloatNs(ParseFloat(words[3]).value))
    ensures (|words| <= 2 || ParseFloat(DropFirst(words[2])).None?) && (|words| <= 3 || ParseFloat(words[3]).None?) ==>
              Classify(Full, words) == BadTime(i)
  {
  }

  /** The fast parser reads only the fourth word without its last
      character, as a decimal integer; fewer than four words never yield a time. */
  lemma {:induction false} FastTimeField(words: seq<string>, i: nat)
    requires |words| >= 2 && words[1] == FastMarker
    requires ParseHex(words[|words| - 1]) == Some(i)
    ensures |words| <= 3 ==> Classify(Fast, words) == BadTime(i)
    ensures |words| > 3 && ParseInt(DropLast(words[3])).Some? ==>
              Classify(Fast, words) == Accepted(i, IntNs(ParseInt(DropLast(words[3])).value))
    ensures |words| > 3 && ParseInt(DropLast(words[3])).None? ==> Classify(Fast, words) == BadTime(i)
  {
  }

  /** Exactly one trailing character is removed: a one-character unit
      such as `s` is dropped ... */
  lemma {:induction false} FastTimeOneCharUnit(n: int, unit: char)
    ensures ParseInt(DropLast(FormatInt(n) + [unit])) == Some(n)
  {
    IntRoundTrip(n);
    assert DropLast(FormatInt(n) + [unit]) == FormatInt(n);
  }

  /** ... while a two-character unit such as `ns` leaves a letter behind
      and the field is rejected. */
  lemma {:induction false} FastTimeTwoCharUnit(n: int, u1: char, u2: char)
    requires !IsDecDigit(u1)
    ensures ParseInt(DropLast(FormatInt(n) + [u1, u2])).None?
  {
    var t := DropLast(FormatInt(n) + [u1, u2]);
    assert t == FormatInt(n) + [u1];
    assert t[|t| - 1] == u1;
  }

  // ---------------------------------------------------------------------
  // Lines as the testbenches print them

  lemma {:induction false} NoSpaceConcat(a: string, b: string)
    requires NoSpace(a) && NoSpace(b)
    ensures NoSpace(a + b)
  {
  }

  lemma {:induction false} DecimalHasNoSpace(s: string)
    requires AllDec(s)
    ensures NoSpace(s)
  {
  }

  lemma {:induction false} IntegerIsWord(n: int)
    ensures IsWord(FormatInt(n))
  {
    if n < 0 {
      DecimalHasNoSpace(Digits(-n, Decimal));
      NoSpaceConcat("-", Digits(-n, Decimal));
    } else {
      DecimalHasNoSpace(Digits(n, Decimal));
    }
  }

  lemma MarkersAreWords()
    ensures IsWord(FullMarker) && IsWord(FastMarker)
  {
  }

  /** The hexadecimal index word `0x...` the testbenches print. */
  function IndexWord(index: nat): (w: string)
    ensures IsWord(w)
    ensures ParseHex(w) == Some(index)
  {
    IndexWordFacts(index);
    "0x" + Digits(index, Hexadecimal)
  }

  lemma {:induction false} IndexWordFacts(index: nat)
    ensures IsWord("0x" + Digits(index, Hexadecimal))
    ensures ParseHex("0x" + Digits(index, Hexadecimal)) == Some(index)
  {
    HexRoundTrip(index);
    PrefixedHexIsWord(Digits(index, Hexadecimal));
  }

  lemma {:induction false} PrefixedHexIsWord(digits: string)
    requires AllHex(digits)
    ensures IsWord("0x" + digits)
  {
    HexHasNoSpace(digits);
    assert NoSpace("0x");
    NoSpaceConcat("0x", digits);
  }

  lemma {:induction false} HexHasNoSpace(s: string)
    requires AllHex(s)
    ensures NoSpace(s)
  {
    assert forall k :: 0 <= k < |s| ==> IsHexDigit(s[k]);
  }

  lemma {:induction false} JoinedWords4(w0: string, w1: string, w2: string, w3: string)
    requires IsWord(w0) && IsWord(w1) && IsWord(w2) && IsWord(w3)
    ensures Words(JoinWith([w0, w1, w2, w3], ' ')) == [w0, w1, w2, w3]
  {
    WordsJoin([w0, w1, w2, w3]);
  }

  lemma {:induction false} JoinedWords5(w0: string, w1: string, w2: string, w3: string, w4: string)
    requires IsWord(w0) && IsWord(w1) && IsWord(w2) && IsWord(w3) && IsWord(w4)
    ensures Words(JoinWith([w0, w1, w2, w3, w4], ' ')) == [w0, w1, w2, w3, w4]
  {
    WordsJoin([w0, w1, w2, w3, w4]);
  }

  /** A fast-testbench line: any word, the marker, any word, the time
      followed by its unit, and the index. */
  function FastLine(head: string, mid: string, ns: int, unit: string, index: nat): string {
    JoinWith([head, FastMarker, mid, FormatInt(ns) + unit, IndexWord(index)], ' ')
  }

  /** The words of a printed fast line are the words it was printed from. */
  lemma {:induction false} FastLineWords(head: string, mid: string, ns: int, unit: string, index: nat)
    requires IsWord(head) && IsWord(mid) && IsWord(unit)
    ensures Words(FastLine(head, mid, ns, unit, index)) == [head, FastMarker, mid, FormatInt(ns) + unit, IndexWord(index)]
  {
    IntegerIsWord(ns);
    NoSpaceConcat(FormatInt(ns), unit);
    MarkersAreWords();
    JoinedWords5(head, FastMarker, mid, FormatInt(ns) + unit, IndexWord(index));
  }

  /** Round trip: a printed fast line with a one-character unit reads back
      as its index and time. */
  lemma {:induction false} FastLineRoundTrip(head: string, mid: string, ns: int, unit: string, index: nat)
    requires IsWord(head) && IsWord(mid) && IsWord(unit) && |unit| == 1
    ensures Outcome(Fast, FastLine(head, mid, ns, unit, index)) == Accepted(index, IntNs(ns))
  {
    FastLineWords(head, mid, ns, unit, index);
    FastWordsAccepted([head, FastMarker, mid, FormatInt(ns) + unit, IndexWord(index)], ns, unit[0], index);
  }

  lemma {:induction false} FastWordsAccepted(words: seq<string>, ns: int, unit: char, index: nat)
    requires |words| == 5 && words[1] == FastMarker
    requires words[3] == FormatInt(ns) + [unit] && words[4] == IndexWord(index)
    ensures Classify(Fast, words) == Accepted(index, IntNs(ns))
  {
    FastTimeOneCharUnit(ns, unit);
    FastTimeField(words, index);
  }

  /** A printed fast line whose unit has two characters, such as `ns`,
      sets the index but stores nothing. */
  lemma {:induction false} FastLineTwoCharUnit(head: string, mid: string, ns: int, unit: string, index: nat)
    requires IsWord(head) && IsWord(mid) && IsWord(unit) && |unit| == 2 && !IsDecDigit(unit[0])
    ensures Outcome(Fast, FastLine(head, mid, ns, unit, index)) == BadTime(index)
  {
    FastLineWords(head, mid, ns, unit, index);
    assert unit == [unit[0], unit[1]];
    var words := [head, FastMarker, mid, FormatInt(ns) + [unit[0], unit[1]], IndexWord(index)];
    FastWordsRejected(words, ns, unit[0], unit[1], index);
  }

  lemma {:induction false} FastWordsRejected(words: seq<string>, ns: int, u1: char, u2: char, index: nat)
    requires |words| == 5 && words[1] == FastMarker && !IsDecDigit(u1)
    requires words[3] == FormatInt(ns) + [u1, u2] && words[4] == IndexWord(index)
    ensures Classify(Fast, words) == BadTime(index)
  {
    FastTimeTwoCharUnit(ns, u1, u2);
    FastTimeField(words, index);
  }

  /** A full-testbench line: any word, the marker, the time as a decimal
      `a.b` after one leading character, and the index. */
  function FullLine(head: string, lead: char, a: string, b: string, index: nat): string {
    JoinWith([head, FullMarker, [lead] + a + "." + b, IndexWord(index)], ' ')
  }

  /** Round trip: a printed full line reads back as its index and time. */
  lemma {:induction false} FullLineRoundTrip(head: string, lead: char, a: string, b: string, index: nat)
    requires IsWord(head) && !IsSpace(lead)
    requires AllDec(a) && AllDec(b) && |a| + |b| > 0
    ensures Outcome(Full, FullLine(head, lead, a, b, index))
              == Accepted(index, FloatNs(Value(a, Decimal) as real + Fraction(b)))
  {
    var timeWord := [lead] + a + "." + b;
    DecimalHasNoSpace(a);
    DecimalHasNoSpace(b);
    NoSpaceConcat([lead], a);
    NoSpaceConcat([lead] + a, ".");
    NoSpaceConcat([lead] + a + ".", b);
    MarkersAreWords();
    JoinedWords4(head, FullMarker, timeWord, IndexWord(index));
    FullWordsAccepted([head, FullMarker, timeWord, IndexWord(index)], lead, a, b, index);
  }

  lemma {:induction false} FullWordsAccepted(words: seq<string>, lead: char, a: string, b: string, index: nat)
    requires |words| == 4 && words[1] == FullMarker
    requires words[2] == [lead] + a + "." + b && words[3] == IndexWord(index)
    requires AllDec(a) && AllDec(b) && |a| + |b| > 0
    ensures Classify(Full, words) == Accepted(index, FloatNs(Value(a, Decimal) as real + Fraction(b)))
  {
    FloatAfterLead(words[2], lead, a, b);
    FullAcceptsFirstTime(words, Value(a, Decimal) as real + Fraction(b), index);
  }

  lemma {:induction false} FullAcceptsFirstTime(words: seq<string>, x: real, index: nat)
    requires |words| == 4 && words[1] == FullMarker && words[3] == IndexWord(index)
    requires ParseFloat(DropFirst(words[2])) == Some(x)
    ensures Classify(Full, words) == Accepted(index, FloatNs(x))
  {
    FullTimeFallback(words, index);
  }

  lemma {:induction false} FloatAfterLead(w: string, lead: char, a: string, b: string)
    requires w == [lead] + a + "." + b
    requires AllDec(a) && AllDec(b) && |a| + |b| > 0
    ensures ParseFloat(DropFirst(w)) == Some(Value(a, Decimal) as real + Fraction(b))
  {
    assert DropFirst(w) == a + "." + b;
    FloatOfFraction(a, b);
  }

  // ---------------------------------------------------------------------
  // Sample lines, as the code reads them

  lemma HexSample()
    ensures ParseHex("0x64") == Some(100)
  {
    assert Digits(6, Hexadecimal) == "6";
    assert Digits(100, Hexadecimal) == "64";
    HexRoundTrip(100);
  }

  /** `x testbench.DUT.MIPS_CORE.ALU yN2.5 0x64`: the index is 100, but
      `N2.5` and `0x64` are both rejected by `float`, so no time is read. */
  lemma FullSampleSkipped()
    ensures Classify(Full, ["x", FullMarker, "yN2.5", "0x64"]) == BadTime(100)
  {
    var words := ["x", FullMarker, "yN2.5", "0x64"];
    HexSample();
    assert DropFirst("yN2.5") == "N2.5";
    assert ParseFloat("N2.5").None? by {
      assert "N2.5"[0] == 'N';
    }
    assert ParseFloat("0x64").None? by {
      assert "0x64"[1] == 'x';
    }
  }

  /** `x testbench.DUT.MIPS_CORE.ALU y2.5 0x64` yields index 100 and time 2.5. */
  lemma FullSampleAccepted()
    ensures Classify(Full, ["x", FullMarker, "y2.5", "0x64"]) == Accepted(100, FloatNs(2.5))
  {
    HexSample();
    assert DropFirst("y2.5") == "2" + "." + "5";
    FloatOfFraction("2", "5");
    assert Value("2", Decimal) == 2 by {
      assert "2"[..0] == "";
    }
    assert Fraction("5") == 0.5 by {
      assert "5"[..0] == "";
      assert Pow10(1) == 10;
    }
  }

  /** `x fast_testbench.MIPS_CORE.ALU y 120ns 0x10`: index 16, and `120n`
      is not an integer, so the line is skipped; with `120s` the time is 120. */
  lemma FastSamples()
    ensures Classify(Fast, ["x", FastMarker, "y", "120ns", "0x10"]) == BadTime(16)
    ensures Classify(Fast, ["x", FastMarker, "y", "120s", "0x10"]) == Accepted(16, IntNs(120))
  {
    assert ParseHex("0x10") == Some(16) by {
      assert Digits(1, Hexadecimal) == "1";
      assert Digits(16, Hexadecimal) == "10";
      HexRoundTrip(16);
    }
    assert DropLast("120ns") == "120n";
    assert ParseInt("120n").None? by {
      assert "120n"[3] == 'n';
    }
    assert DropLast("120s") == "120";
    assert ParseInt("120") == Some(120) by {
      assert Digits(1, Decimal) == "1";
      assert Digits(12, Decimal) == "12";
      assert Digits(120, Decimal) == "120";
      IntRoundTrip(120);
    }
  }
}
