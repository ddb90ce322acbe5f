/**
 * The signal parser: splits the message into trimmed lines, gives each line to the first of six
 * patterns that matches it, fills a partial signal field by field, and accepts the result only
 * when every required field is present.
 *
 * The markers of the original patterns are emoji; here they are ASCII stand-ins ("@Pair:" for
 * the envelope emoji followed by "Pair:", and so on). Each pattern is `marker \s* (token)`,
 * searched anywhere in the line; the leverage pattern is `marker \s* (\w+) \s* (\d+) x` and the
 * target pattern allows digits between "Target" and the colon.
 */
module ParseMessage {
  import opened Wrappers
  import opened Text
  import opened Numeric
  import opened Types

  /** The six patterns, in the order the parser tries them. */
  datatype Pattern = PairPattern | DirectionPattern | LeveragePattern | EntryPattern | TargetPattern | StopLossPattern

  function Marker(p: Pattern): string {
    match p
    case PairPattern => "@Pair:"
    case DirectionPattern => "@Direction:"
    case LeveragePattern => "@Leverage:"
    case EntryPattern => "@Entry:"
    case TargetPattern => "@Target"
    case StopLossPattern => "@Stop Loss:"
  }

  /** What a pattern captures: one token, or the margin type and the leverage of the leverage pattern. */
  datatype Capture = Token(text: string) | MarginLeverage(marginType: string, leverage: nat)

  /** The shape of a pattern's capture: the right alternative, and never an empty word or token. */
  predicate Fits(p: Pattern, c: Capture) {
    if p == LeveragePattern then c.MarginLeverage? && c.marginType != [] else c.Token? && c.text != []
  }

  predicate StartsAt(s: string, i: nat, marker: string) {
    i + |marker| <= |s| && s[i..i + |marker|] == marker
  }

  /** `\s* (C+)` from position m: the token of class C after optional white space. */
  function TokenAfter(s: string, m: nat, token: CharClass): (r: Option<Capture>)
    requires m <= |s|
    ensures r.Some? ==> r.value.Token? && r.value.text != []
  {
    var j := Span(s, m, Space);
    var k := Span(s, j, token);
    if j < k then Some(Token(s[j..k])) else None
  }

  /** `\s*(\d+)x` from position e: the leverage, read by `parseInt`, when the pattern's tail matches there. */
  function LeverageAfter(s: string, e: nat): Option<nat>
    requires e <= |s|
    decreases |s| - e
  {
    if e < |s| && IsSpace(s[e]) then LeverageAfter(s, e + 1) else DigitsThenX(s, e)
  }

  /** `(\d+)x` from position f. */
  function DigitsThenX(s: string, f: nat): Option<nat>
    requires f <= |s|
  {
    var g := Span(s, f, Digit);
    if f < g < |s| && s[g] == 'x' then Some(ParseInt(s[f..g])) else None
  }

  /**
   * `(\w+) \s* (\d+) x` with the word ending at e (from q): the regex engine tries the longest
   * word first and gives back one character at a time until `\s*(\d+)x` follows it.
   */
  function LeverageSplit(s: string, q: nat, e: nat): (r: Option<Capture>)
    requires q < e <= |s|
    decreases e
    ensures r.Some? ==> r.value.MarginLeverage? && r.value.marginType != []
  {
    match LeverageAfter(s, e)
    case Some(leverage) => Some(MarginLeverage(s[q..e], leverage))
    case None => if q + 1 < e then LeverageSplit(s, q, e - 1) else None
  }

  /** `\d*:\s*([\d.]+)` from position m: the target pattern after its marker. */
  function TargetAfter(s: string, m: nat): Option<Capture>
    requires m <= |s|
  {
    var j := Span(s, m, Digit);
    if j < |s| && s[j] == ':' then TokenAfter(s, j + 1, DigitOrDot) else None
  }

  /** The pattern tried at start position i: its capture, if it matches there. */
  function MatchAt(s: string, i: nat, p: Pattern): (r: Option<Capture>)
    ensures r.Some? ==> Fits(p, r.value) && StartsAt(s, i, Marker(p))
  {
    if !StartsAt(s, i, Marker(p)) then None
    else
      var m := i + |Marker(p)|;
      match p
      case LeveragePattern =>
        var q := Span(s, m, Space);
        var e := Span(s, q, WordChar);
        if q < e then LeverageSplit(s, q, e) else None
      case TargetPattern => TargetAfter(s, m)
      case PairPattern => TokenAfter(s, m, WordChar)
      case DirectionPattern => TokenAfter(s, m, WordChar)
      case EntryPattern => TokenAfter(s, m, DigitOrDot)
      case StopLossPattern => TokenAfter(s, m, DigitOrDot)
  }

  /**
   * `\s*(C+)` from m: there is a match exactly when a run of C follows the run of white space,
   * and the capture is that whole run.
   */
  lemma TokenAfterRuns(s: string, m: nat, token: CharClass, j: nat, k: nat)
    requires m <= |s| && MaxRun(s, m, j, Space) && MaxRun(s, j, k, token)
    ensures TokenAfter(s, m, token) == if j < k then Some(Token(s[j..k])) else None
  {
    MaxRunIsSpan(s, m, j, Space);
    MaxRunIsSpan(s, j, k, token);
  }

  /** `\s*(\d+)x` from e: a run of digits after the white space, followed by an `x`. */
  lemma {:induction false} LeverageAfterRuns(s: string, e: nat, f: nat, g: nat)
    requires e <= |s| && MaxRun(s, e, f, Space) && MaxRun(s, f, g, Digit)
    decreases f - e
    ensures LeverageAfter(s, e) == if f < g < |s| && s[g] == 'x' then Some(ParseInt(s[f..g])) else None
  {
    if e < f {
      LeverageAfterRuns(s, e + 1, f, g);
    } else {
      MaxRunIsSpan(s, f, g, Digit);
    }
  }

  /**
   * Backtracking keeps the longest prefix `s[q..w]` of the word after which `\s*(\d+)x` matches:
   * that prefix is the margin type and the digits after it are the leverage.
   */
  lemma {:induction false} LeverageSplitLongest(s: string, q: nat, e: nat, w: nat)
    requires q < w <= e <= |s| && LeverageAfter(s, w).Some?
    requires forall v :: w < v <= e ==> LeverageAfter(s, v).None?
    decreases e
    ensures LeverageSplit(s, q, e) == Some(MarginLeverage(s[q..w], LeverageAfter(s, w).value))
  {
    if w < e {
      assert LeverageAfter(s, e).None?;
      LeverageSplitLongest(s, q, e - 1, w);
      assert LeverageSplit(s, q, e) == LeverageSplit(s, q, e - 1);
    }
  }

  /** The leverage pattern fails on a word exactly when no non-empty prefix of it is followed by `\s*(\d+)x`. */
  lemma {:induction false} LeverageSplitFails(s: string, q: nat, e: nat)
    requires q < e <= |s|
    decreases e
    ensures LeverageSplit(s, q, e).None? <==> forall v :: q < v <= e ==> LeverageAfter(s, v).None?
  {
    if LeverageAfter(s, e).Some? {
      assert LeverageSplit(s, q, e) == Some(MarginLeverage(s[q..e], LeverageAfter(s, e).value));
    } else if q + 1 < e {
      LeverageSplitFails(s, q, e - 1);
      assert LeverageSplit(s, q, e) == LeverageSplit(s, q, e - 1);
    }
  }

  /** The class of the token a one-token pattern captures: `\w` for pair and direction, `[\d.]` for prices. */
  function TokenClass(p: Pattern): CharClass {
    if p == PairPattern || p == DirectionPattern then WordChar else DigitOrDot
  }

  /**
   * Pair, direction, entry and stop loss (`marker\s*(C+)`) match where their marker starts
   * exactly when a run of the token class follows the white space after it; the capture is that
   * whole run.
   */
  lemma MatchAtToken(s: string, i: nat, p: Pattern, j: nat, k: nat)
    requires p == PairPattern || p == DirectionPattern || p == EntryPattern || p == StopLossPattern
    requires StartsAt(s, i, Marker(p)) && MaxRun(s, i + |Marker(p)|, j, Space) && MaxRun(s, j, k, TokenClass(p))
    ensures MatchAt(s, i, p) == if j < k then Some(Token(s[j..k])) else None
  {
    assert MatchAt(s, i, p) == TokenAfter(s, i + |Marker(p)|, TokenClass(p));
    TokenAfterRuns(s, i + |Marker(p)|, TokenClass(p), j, k);
  }

  /**
   * The target pattern after its marker: a run of digits, a colon right after it, then white
   * space and a run of digits and dots, which is the capture; no colon after the digits, no match.
   */
  lemma TargetAfterRuns(s: string, m: nat, c: nat, j: nat, k: nat)
    requires m <= |s| && MaxRun(s, m, c, Digit)
    requires c < |s| ==> MaxRun(s, c + 1, j, Space) && MaxRun(s, j, k, DigitOrDot)
    ensures TargetAfter(s, m) == if c < |s| && s[c] == ':' && j < k then Some(Token(s[j..k])) else None
  {
    MaxRunIsSpan(s, m, c, Digit);
    assert TargetAfter(s, m) == if c < |s| && s[c] == ':' then TokenAfter(s, c + 1, DigitOrDot) else None;
    if c < |s| && s[c] == ':' {
      TokenAfterRuns(s, c + 1, DigitOrDot, j, k);
    }
  }

  /** The target pattern where its marker starts (`marker\d*:\s*([\d.]+)`) is `TargetAfter` right after the marker. */
  lemma MatchAtTarget(s: string, i: nat, c: nat, j: nat, k: nat)
    requires StartsAt(s, i, Marker(TargetPattern)) && MaxRun(s, i + |Marker(TargetPattern)|, c, Digit)
    requires c < |s| ==> MaxRun(s, c + 1, j, Space) && MaxRun(s, j, k, DigitOrDot)
    ensures MatchAt(s, i, TargetPattern) ==
              if c < |s| && s[c] == ':' && j < k then Some(Token(s[j..k])) else None
  {
    TargetAfterRuns(s, i + |Marker(TargetPattern)|, c, j, k);
  }

  /** The leverage pattern where its marker starts: the word after the white space, split by backtracking. */
  lemma MatchAtLeverage(s: string, i: nat, q: nat, e: nat)
    requires StartsAt(s, i, Marker(LeveragePattern))
    requires MaxRun(s, i + |Marker(LeveragePattern)|, q, Space) && MaxRun(s, q, e, WordChar)
    ensures MatchAt(s, i, LeveragePattern) == if q < e then LeverageSplit(s, q, e) else None
  {
    MaxRunIsSpan(s, i + |Marker(LeveragePattern)|, q, Space);
    MaxRunIsSpan(s, q, e, WordChar);
  }

  /** `pattern.exec(s)` searching from position i: the match that starts leftmost. */
  function Find(s: string, i: nat, p: Pattern): (r: Option<Capture>)
    decreases |s| + 1 - i
    ensures r.Some? ==> Fits(p, r.value)
  {
    if i > |s| then None
    else if MatchAt(s, i, p).Some? then MatchAt(s, i, p)
    else Find(s, i + 1, p)
  }

  /** `Find` misses no match: a start position from i on that matches makes it find one. */
  lemma {:induction false} FindComplete(s: string, i: nat, k: nat, p: Pattern)
    requires i <= k <= |s| && MatchAt(s, k, p).Some?
    decreases k - i
    ensures Find(s, i, p).Some?
  {
    if i < k && MatchAt(s, i, p).None? {
      FindComplete(s, i + 1, k, p);
    }
  }

  /** `Find` invents no match: what it returns is the pattern's match at some start position from i on. */
  lemma {:induction false} FindSound(s: string, i: nat, p: Pattern)
    decreases |s| + 1 - i
    ensures Find(s, i, p).Some? ==> exists k :: i <= k <= |s| && MatchAt(s, k, p) == Find(s, i, p)
  {
    if i <= |s| && MatchAt(s, i, p).None? {
      FindSound(s, i + 1, p);
    }
  }

  /** `Find` returns the match at the first start position from i on where the pattern matches. */
  lemma {:induction false} FindLeftmost(s: string, i: nat, k: nat, p: Pattern)
    requires i <= k <= |s| && MatchAt(s, k, p).Some?
    requires forall j :: i <= j < k ==> MatchAt(s, j, p).None?
    decreases k - i
    ensures Find(s, i, p) == MatchAt(s, k, p)
  {
    if i < k {
      FindLeftmost(s, i + 1, k, p);
    }
  }

  /** What one line says, decided by the first pattern (in the fixed order) that matches it. */
  datatype LineKind =
    | PairLine(pair: string)
    | DirectionLine(direction: string)
    | LeverageLine(marginType: string, leverage: nat)
    | EntryLine(entry: Num)
    | TargetLine(target: Num)
    | StopLossLine(stopLoss: Num)
    | OtherLine

  function Classify(line: string): (k: LineKind)
    ensures Captured(k)
  {
    var pair := Find(line, 0, PairPattern);
    var direction := Find(line, 0, DirectionPattern);
    var leverage := Find(line, 0, LeveragePattern);
    var entry := Find(line, 0, EntryPattern);
    var target := Find(line, 0, TargetPattern);
    var stopLoss := Find(line, 0, StopLossPattern);
    if pair.Some? then PairLine(pair.value.text)
    else if direction.Some? then DirectionLine(direction.value.text)
    else if leverage.Some? then LeverageLine(leverage.value.marginType, leverage.value.leverage)
    else if entry.Some? then EntryLine(ParseFloat(entry.value.text))
    else if target.Some? then TargetLine(ParseFloat(target.value.text))
    else if stopLoss.Some? then StopLossLine(ParseFloat(stopLoss.value.text))
    else OtherLine
  }

  /** `pattern.exec(line)` for each of the six patterns, searching the whole line. */
  function Exec(line: string, p: Pattern): Option<Capture> {
    match p
    case PairPattern => Find(line, 0, PairPattern)
    case DirectionPattern => Find(line, 0, DirectionPattern)
    case LeveragePattern => Find(line, 0, LeveragePattern)
    case EntryPattern => Find(line, 0, EntryPattern)
    case TargetPattern => Find(line, 0, TargetPattern)
    case StopLossPattern => Find(line, 0, StopLossPattern)
  }

  /** The place of a pattern in the order the parser tries them. */
  function Priority(p: Pattern): nat {
    match p
    case PairPattern => 0
    case DirectionPattern => 1
    case LeveragePattern => 2
    case EntryPattern => 3
    case TargetPattern => 4
    case StopLossPattern => 5
  }

  /** The pattern that produced a line's kind. */
  function Source(k: LineKind): Option<Pattern> {
    match k
    case PairLine(_) => Some(PairPattern)
    case DirectionLine(_) => Some(DirectionPattern)
    case LeverageLine(_, _) => Some(LeveragePattern)
    case EntryLine(_) => Some(EntryPattern)
    case TargetLine(_) => Some(TargetPattern)
    case StopLossLine(_) => Some(StopLossPattern)
    case OtherLine => None
  }

  /**
   * First match wins: a line's kind comes from a pattern that matches it and that no earlier
   * pattern precedes with a match of its own; a line no pattern matches sets nothing.
   */
  lemma FirstMatchWins(line: string)
    ensures var k := Classify(line);
            (k.OtherLine? <==> forall p :: Exec(line, p).None?) &&
            (!k.OtherLine? ==>
               Source(k).Some? && Exec(line, Source(k).value).Some? &&
               forall p :: Priority(p) < Priority(Source(k).value) ==> Exec(line, p).None?)
  {
    var k := Classify(line);
    if k.OtherLine? {
      forall p ensures Exec(line, p).None? {
        match p
        case PairPattern =>
        case DirectionPattern =>
        case LeveragePattern =>
        case EntryPattern =>
        case TargetPattern =>
        case StopLossPattern =>
      }
    } else {
      var source := Source(k).value;
      assert Exec(line, source).Some?;
      forall p | Priority(p) < Priority(source) ensures Exec(line, p).None? {
        match p
        case PairPattern =>
        case DirectionPattern =>
        case LeveragePattern =>
        case EntryPattern =>
        case TargetPattern =>
        case StopLossPattern =>
      }
    }
  }

  /**
   * What a line sets is what the deciding pattern captured: pair, direction and margin type as
   * the words captured, the leverage as `parseInt` read it, and entry, target and stop loss as
   * `parseFloat` reads the captured token.
   */
  lemma LineSetsCapture(line: string)
    ensures var k := Classify(line);
            (k.PairLine? ==> Exec(line, PairPattern) == Some(Token(k.pair))) &&
            (k.DirectionLine? ==> Exec(line, DirectionPattern) == Some(Token(k.direction))) &&
            (k.LeverageLine? ==> Exec(line, LeveragePattern) == Some(MarginLeverage(k.marginType, k.leverage))) &&
            (k.EntryLine? ==> Exec(line, EntryPattern).Some? && Exec(line, EntryPattern).value.Token? &&
                                k.entry == ParseFloat(Exec(line, EntryPattern).value.text)) &&
            (k.TargetLine? ==> Exec(line, TargetPattern).Some? && Exec(line, TargetPattern).value.Token? &&
                                 k.target == ParseFloat(Exec(line, TargetPattern).value.text)) &&
            (k.StopLossLine? ==> Exec(line, StopLossPattern).Some? && Exec(line, StopLossPattern).value.Token? &&
                                   k.stopLoss == ParseFloat(Exec(line, StopLossPattern).value.text))
  {
  }

  /** The signal being filled in (`Partial<TradeSignal>`). */
  datatype Draft = Draft(
    pair: Option<string>,
    direction: Option<string>,
    marginType: Option<string>,
    leverage: Option<nat>,
    entry: Option<Num>,
    stopLoss: Option<Num>,
    targets: seq<real>)

  const EmptyDraft: Draft := Draft(None, None, None, None, None, None, [])

  /**
   * One step of the line loop: a scalar field is overwritten, a target is appended unless it
   * parsed to NaN. The model's `ParseFloat` has no overflow to Infinity, so here "not NaN" is
   * "finite".
   */
  function Apply(d: Draft, k: LineKind): (r: Draft)
    ensures Coherent(d) ==> Coherent(r)
    ensures d.targets <= r.targets && |r.targets| <= |d.targets| + 1
  {
    match k
    case PairLine(p) => d.(pair := Some(p))
    case DirectionLine(x) => d.(direction := Some(x))
    case LeverageLine(m, l) => d.(marginType := Some(m), leverage := Some(l))
    case EntryLine(e) => d.(entry := Some(e))
    case TargetLine(t) => if t.Finite? then d.(targets := d.targets + [t.value]) else d
    case StopLossLine(x) => d.(stopLoss := Some(x))
    case OtherLine => d
  }

  /** What each line says. */
  function Kinds(lines: seq<string>): (kinds: seq<LineKind>)
    ensures |kinds| == |lines|
  {
    seq(|lines|, i requires 0 <= i < |lines| => Classify(lines[i]))
  }

  /** The draft after the loop has handled lines of the given kinds, in order. */
  function Fold(kinds: seq<LineKind>): Draft {
    if kinds == [] then EmptyDraft
    else Apply(Fold(kinds[..|kinds| - 1]), kinds[|kinds| - 1])
  }

  /** The final check: every required field set (strings non-empty), at least one target. */
  function Validate(d: Draft): (r: Option<TradeSignal>)
    ensures r.Some? ==> r.value.pair != [] && r.value.direction != [] && r.value.marginType != []
    ensures r.Some? ==> r.value.targets == d.targets && |r.value.targets| > 0
  {
    if d.pair.Some? && d.pair.value != [] &&
       d.direction.Some? && d.direction.value != [] &&
       d.marginType.Some? && d.marginType.value != [] &&
       d.leverage.Some? && d.entry.Some? && d.stopLoss.Some? && |d.targets| > 0
    then Some(TradeSignal(d.pair.value, d.direction.value, d.marginType.value, d.leverage.value,
                          d.entry.value, d.stopLoss.value, d.targets))
    else None
  }

  /** `messageText.split('\n').map(line => line.trim())` */
  function Lines(text: string): (lines: seq<string>)
    ensures |lines| == |Split(text, '\n')|
  {
    var pieces := Split(text, '\n');
    seq(|pieces|, i requires 0 <= i < |pieces| => Trim(pieces[i]))
  }

  /** The parser as a function of the message text. */
  function Parse(text: string): (r: Option<TradeSignal>)
    ensures r.Some? ==> r.value.pair != [] && r.value.direction != [] && r.value.marginType != []
    ensures r.Some? ==> |r.value.targets| > 0
  {
    Validate(Fold(Kinds(Lines(text))))
  }

  /** One pass of the loop body: the first pattern that matches the line decides what it sets. */
  method ApplyLine(signal: Draft, line: string) returns (next: Draft)
    ensures next == Apply(signal, Classify(line))
  {
    var pair := Find(line, 0, PairPattern);
    if pair.Some? {
      assert Classify(line) == PairLine(pair.value.text);
      return signal.(pair := Some(pair.value.text));
    }
    var direction := Find(line, 0, DirectionPattern);
    if direction.Some? {
      assert Classify(line) == DirectionLine(direction.value.text);
      return signal.(direction := Some(direction.value.text));
    }
    var leverage := Find(line, 0, LeveragePattern);
    if leverage.Some? {
      assert Classify(line) == LeverageLine(leverage.value.marginType, leverage.value.leverage);
      return signal.(marginType := Some(leverage.value.marginType), leverage := Some(leverage.value.leverage));
    }
    var entry := Find(line, 0, EntryPattern);
    if entry.Some? {
      assert Classify(line) == EntryLine(ParseFloat(entry.value.text));
      return signal.(entry := Some(ParseFloat(entry.value.text)));
    }
    var target := Find(line, 0, TargetPattern);
    if target.Some? {
      assert Classify(line) == TargetLine(ParseFloat(target.value.text));
      var value := ParseFloat(target.value.text);
      if value.NaN? {
        return signal;
      }
      return signal.(targets := signal.targets + [value.value]);
    }
    var stopLoss := Find(line, 0, StopLossPattern);
    if stopLoss.Some? {
      assert Classify(line) == StopLossLine(ParseFloat(stopLoss.value.text));
      return signal.(stopLoss := Some(ParseFloat(stopLoss.value.text)));
    }
    return signal;
  }

  /** `parseMessage`: the line loop, filling the draft one line at a time, then the final check. */
  method ParseMessage(messageText: string) returns (r: Option<TradeSignal>)
    ensures r == Parse(messageText)
  {
    var lines := Lines(messageText);
    var signal := EmptyDraft;
    for i := 0 to |lines|
      invariant signal == Fold(Kinds(lines)[..i])
    {
      FoldStep(lines, i);
      signal := ApplyLine(signal, lines[i]);
    }
    assert Kinds(lines)[..|lines|] == Kinds(lines);
    r := Validate(signal);
  }

  /** Handling one more line applies that line's kind to the draft so far. */
  lemma FoldStep(lines: seq<string>, i: nat)
    requires i < |lines|
    ensures Fold(Kinds(lines)[..i + 1]) == Apply(Fold(Kinds(lines)[..i]), Classify(lines[i]))
  {
    var kinds := Kinds(lines);
    assert kinds[..i + 1][..i] == kinds[..i];
  }

  // ---------------------------------------------------------------------------------------------
  // Properties of the parser

  /** The scalar fields, with margin type and leverage as one field: one line sets both. */
  datatype Field = PairField | DirectionField | LeverageField | EntryField | StopLossField

  datatype Value = Word(word: string) | MarginAndLeverage(marginType: string, leverage: nat) | Number(number: Num)

  /** The scalar field a line sets and the value it sets it to; target and other lines set none. */
  function Sets(k: LineKind): Option<(Field, Value)> {
    match k
    case PairLine(p) => Some((PairField, Word(p)))
    case DirectionLine(x) => Some((DirectionField, Word(x)))
    case LeverageLine(m, l) => Some((LeverageField, MarginAndLeverage(m, l)))
    case EntryLine(e) => Some((EntryField, Number(e)))
    case StopLossLine(x) => Some((StopLossField, Number(x)))
    case _ => None
  }

  predicate SetsField(k: LineKind, f: Field) {
    Sets(k).Some? && Sets(k).value.0 == f
  }

  /** A draft's margin type and leverage are set together. */
  predicate Coherent(d: Draft) {
    d.marginType.Some? <==> d.leverage.Some?
  }

  function Get(d: Draft, f: Field): Option<Value> {
    match f
    case PairField => if d.pair.Some? then Some(Word(d.pair.value)) else None
    case DirectionField => if d.direction.Some? then Some(Word(d.direction.value)) else None
    case LeverageField =>
      if d.marginType.Some? && d.leverage.Some? then Some(MarginAndLeverage(d.marginType.value, d.leverage.value))
      else None
    case EntryField => if d.entry.Some? then Some(Number(d.entry.value)) else None
    case StopLossField => if d.stopLoss.Some? then Some(Number(d.stopLoss.value)) else None
  }

  /** The values of the target lines that did not parse to NaN, in the order of the lines. */
  function TargetValues(kinds: seq<LineKind>): seq<real> {
    if kinds == [] then []
    else
      (if kinds[0].TargetLine? && kinds[0].target.Finite? then [kinds[0].target.value] else []) +
      TargetValues(kinds[1..])
  }

  /**
   * Each line populates at most one field: the scalar field its kind names is overwritten with
   * the line's value, targets grow only on a target line, and nothing else changes.
   */
  lemma ApplyTouchesOneField(d: Draft, k: LineKind, f: Field)
    requires Coherent(d)
    ensures Coherent(Apply(d, k))
    ensures Get(Apply(d, k), f) == if SetsField(k, f) then Some(Sets(k).value.1) else Get(d, f)
    ensures Apply(d, k).targets == d.targets + (if k.TargetLine? && k.target.Finite? then [k.target.value] else [])
  {
  }

  lemma {:induction false} FoldCoherent(kinds: seq<LineKind>)
    ensures Coherent(Fold(kinds))
  {
    if kinds != [] {
      FoldCoherent(kinds[..|kinds| - 1]);
    }
  }

  /**
   * Last match wins: a scalar field is unset exactly when no line sets it, and otherwise holds
   * the value of the last line that sets it, exactly as that line's pattern captured it.
   */
  lemma {:induction false} LastMatchWins(kinds: seq<LineKind>, f: Field)
    ensures LastSetter(kinds, f, Fold(kinds))
  {
    if kinds != [] {
      var init := kinds[..|kinds| - 1];
      LastMatchWins(init, f);
      FoldCoherent(init);
      assert kinds == init + [kinds[|kinds| - 1]];
      LastMatchStep(init, kinds[|kinds| - 1], Fold(init), f);
    }
  }

  /** A field is set exactly when some line sets it. */
  lemma SetIffMentioned(kinds: seq<LineKind>, f: Field)
    ensures Get(Fold(kinds), f).Some? <==> Mentions(kinds, f)
  {
    LastMatchWins(kinds, f);
  }

  /** `d` holds, in field f, what the last of `kinds` to set f set it to, and nothing if none did. */
  predicate LastSetter(kinds: seq<LineKind>, f: Field, d: Draft) {
    (Get(d, f).None? <==> forall i :: 0 <= i < |kinds| ==> !SetsField(kinds[i], f)) &&
    (Get(d, f).Some? ==>
       exists i :: 0 <= i < |kinds| && Sets(kinds[i]) == Some((f, Get(d, f).value)) &&
         forall j :: i < j < |kinds| ==> !SetsField(kinds[j], f))
  }

  /** One more line keeps `LastSetter`. */
  lemma LastMatchStep(init: seq<LineKind>, k: LineKind, d: Draft, f: Field)
    requires Coherent(d) && LastSetter(init, f, d)
    ensures LastSetter(init + [k], f, Apply(d, k))
  {
    var kinds := init + [k];
    ApplyTouchesOneField(d, k, f);
    assert forall i :: 0 <= i < |init| ==> init[i] == kinds[i];
    assert kinds[|init|] == k;
    if SetsField(k, f) {
      assert Sets(kinds[|init|]) == Some((f, Get(Apply(d, k), f).value));
    } else if Get(d, f).Some? {
      var i :| 0 <= i < |init| && Sets(init[i]) == Some((f, Get(d, f).value)) &&
               forall j :: i < j < |init| ==> !SetsField(init[j], f);
      assert Sets(kinds[i]) == Some((f, Get(Apply(d, k), f).value));
    }
  }

  lemma {:induction false} TargetValuesAppend(kinds: seq<LineKind>, k: LineKind)
    ensures TargetValues(kinds + [k]) == TargetValues(kinds) + TargetValues([k])
  {
    if kinds != [] {
      assert (kinds + [k])[1..] == kinds[1..] + [k];
      TargetValuesAppend(kinds[1..], k);
    } else {
      assert kinds + [k] == [k];
    }
  }

  /** Targets are appended in the order their lines appear, NaN values skipped. */
  lemma {:induction false} TargetsInLineOrder(kinds: seq<LineKind>)
    ensures Fold(kinds).targets == TargetValues(kinds)
  {
    if kinds != [] {
      var init := kinds[..|kinds| - 1];
      var k := kinds[|kinds| - 1];
      TargetsInLineOrder(init);
      assert kinds == init + [k];
      TargetValuesAppend(init, k);
      assert TargetValues([k]) == (if k.TargetLine? && k.target.Finite? then [k.target.value] else []) + TargetValues([]);
    }
  }

  /** Some line sets field f. */
  predicate Mentions(kinds: seq<LineKind>, f: Field) {
    exists i :: 0 <= i < |kinds| && SetsField(kinds[i], f)
  }

  /** What `Classify` reports of a line: the captured words are never empty. */
  predicate Captured(k: LineKind) {
    match k
    case PairLine(p) => p != []
    case DirectionLine(x) => x != []
    case LeverageLine(m, _) => m != []
    case _ => true
  }

  /** So a pair, direction or margin type that is set is truthy. */
  lemma {:induction false} WordsNonEmpty(kinds: seq<LineKind>)
    requires forall i :: 0 <= i < |kinds| ==> Captured(kinds[i])
    ensures Fold(kinds).pair.Some? ==> Fold(kinds).pair.value != []
    ensures Fold(kinds).direction.Some? ==> Fold(kinds).direction.value != []
    ensures Fold(kinds).marginType.Some? ==> Fold(kinds).marginType.value != []
  {
    if kinds != [] {
      WordsNonEmpty(kinds[..|kinds| - 1]);
    }
  }

  /**
   * The acceptance predicate, on the kinds of the lines: a draft validates exactly when some
   * line sets each of pair, direction, leverage with margin type, entry and stop loss, and some
   * target line carries a number. The signal then holds the last value of each field and every
   * target in line order.
   */
  lemma ValidateAccepts(kinds: seq<LineKind>)
    requires forall i :: 0 <= i < |kinds| ==> Captured(kinds[i])
    ensures Validate(Fold(kinds)).Some? <==>
              Mentions(kinds, PairField) && Mentions(kinds, DirectionField) && Mentions(kinds, LeverageField) &&
              Mentions(kinds, EntryField) && Mentions(kinds, StopLossField) && |TargetValues(kinds)| > 0
    ensures var d := Fold(kinds);
            Validate(d).Some? ==>
              var s := Validate(d).value;
              Get(d, PairField) == Some(Word(s.pair)) && Get(d, DirectionField) == Some(Word(s.direction)) &&
              Get(d, LeverageField) == Some(MarginAndLeverage(s.marginType, s.leverage)) &&
              Get(d, EntryField) == Some(Number(s.entry)) && Get(d, StopLossField) == Some(Number(s.stopLoss)) &&
              s.targets == TargetValues(kinds)
  {
    SetIffMentioned(kinds, PairField);
    SetIffMentioned(kinds, DirectionField);
    SetIffMentioned(kinds, LeverageField);
    SetIffMentioned(kinds, EntryField);
    SetIffMentioned(kinds, StopLossField);
    TargetsInLineOrder(kinds);
    WordsNonEmpty(kinds);
    FoldCoherent(kinds);
  }

  /** The same for a message: it parses exactly when its lines carry every required field. */
  lemma ParseAccepts(text: string)
    ensures var kinds := Kinds(Lines(text));
            Parse(text).Some? <==>
              Mentions(kinds, PairField) && Mentions(kinds, DirectionField) && Mentions(kinds, LeverageField) &&
              Mentions(kinds, EntryField) && Mentions(kinds, StopLossField) && |TargetValues(kinds)| > 0
  {
    var lines := Lines(text);
    var kinds := Kinds(lines);
    forall i | 0 <= i < |kinds| ensures Captured(kinds[i]) {
      assert kinds[i] == Classify(lines[i]);
    }
    ValidateAccepts(kinds);
  }

  lemma {:induction false} NoTargetLineNoTargets(kinds: seq<LineKind>)
    requires forall i :: 0 <= i < |kinds| ==> !kinds[i].TargetLine?
    ensures TargetValues(kinds) == []
  {
    if kinds != [] {
      NoTargetLineNoTargets(kinds[1..]);
    }
  }

  /** A message none of whose lines is a target line is rejected, whatever else it holds. */
  lemma MissingTargetRejected(text: string)
    requires var kinds := Kinds(Lines(text)); forall i :: 0 <= i < |kinds| ==> !kinds[i].TargetLine?
    ensures Parse(text).None?
  {
    NoTargetLineNoTargets(Kinds(Lines(text)));
    ParseAccepts(text);
  }
}
