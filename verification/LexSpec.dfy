// What a generated scanner should deliver: longest matches over the plain
// input, with no buffers, no sentinels and no refills.
module LexSpec {
  import opened Arithmetic

  type State = nat

  const NEWLINE: Byte := 10

  /** The rule number of the end-of-buffer pseudo-action. */
  const END_OF_BUFFER: nat := 16

  /** An entry of yy_acclist: an ordinary rule, or the end or the head of a rule
      with variable trailing context (the masks 0x2000 and 0x4000). */
  datatype Accept = Plain(rule: nat) | TrailEnd(rule: nat) | TrailHead(rule: nat)

  datatype Token = Token(rule: nat, text: seq<Byte>)

  /** The tables. move is the transition on a buffer character, where 0 is the
      end-of-buffer character; moveNul is the one on a real NUL. The start state
      depends on what the actions did so far and on the beginning-of-line flag. */
  datatype Lexer = Lexer(
    move: (State, Byte) -> State,
    moveNul: State -> State,
    stop: State -> bool,
    acclist: State -> seq<Accept>,
    start: (seq<Token>, bool) -> State,
    jam: State,
    eob: State)
  {
    /** The transition on a byte of the input. */
    function Real(q: State, c: Byte): State {
      if c == 0 then moveNul(q) else move(q, c)
    }

    /** The facts about the tables that the scanner's control flow relies on. */
    ghost predicate WellFormed() {
      && (forall q :: q != eob ==> move(q, 0) == eob)
      && (forall c :: move(eob, c) == jam)
      && (forall q, c :: c != 0 && (q == jam || stop(q)) ==> move(q, c) == jam)
      && (forall q :: q == jam || stop(q) ==> moveNul(q) == jam)
      && (forall q, c :: c != 0 ==> move(q, c) != eob)
      && (forall q :: moveNul(q) != eob)
      && (forall h, b :: start(h, b) != eob)
      && stop(jam) && !stop(eob)
      && acclist(jam) == [] && acclist(eob) == [Plain(END_OF_BUFFER)]
      && (forall q, i :: q != eob && 0 <= i < |acclist(q)| ==> acclist(q)[i].rule != END_OF_BUFFER)
    }
  }

  // --- the states along an input ---------------------------------------------

  /** The state after k bytes of the file, from position at on. */
  ghost function StateAfter(L: Lexer, q: State, file: seq<Byte>, at: nat, k: nat): State
    requires at + k <= |file|
    decreases k
  {
    if k == 0 then q else L.Real(StateAfter(L, q, file, at, k - 1), file[at + k - 1])
  }

  ghost function States(L: Lexer, q: State, file: seq<Byte>, at: nat): (st: seq<State>)
    requires at <= |file|
    ensures |st| == |file| - at + 1
    ensures forall k :: 0 <= k < |st| ==> st[k] == StateAfter(L, q, file, at, k)
  {
    seq(|file| - at + 1, k requires 0 <= k <= |file| - at => StateAfter(L, q, file, at, k))
  }

  // --- choosing the rule -------------------------------------------------------

  datatype Option<T> = None | Some(value: T)

  datatype Match = Stuck | Found(rule: nat, length: nat)

  /** Backing up through the stack of states: the entries of st[i] from lp on,
      then those of the states below, with the trailing context being looked
      for, if any. */
  ghost function FindRule(L: Lexer, st: seq<State>, i: nat, lp: nat, looking: Option<nat>): (r: Match)
    requires i < |st|
    ensures r.Found? ==> r.length <= i
    decreases i, |L.acclist(st[i])| - lp
  {
    var acc := L.acclist(st[i]);
    if lp < |acc| then
      match acc[lp]
      case TrailHead(r) => if looking == Some(r) then Found(r, i) else FindRule(L, st, i, lp + 1, looking)
      case TrailEnd(r) => FindRule(L, st, i, lp + 1, if looking == None then Some(r) else looking)
      case Plain(r) => if looking == None then Found(r, i) else FindRule(L, st, i, lp + 1, looking)
    else if i == 0 then Stuck
    else FindRule(L, st, i - 1, 0, looking)
  }

  /** The match at a position of the file: from the longest text down. */
  ghost function LongestMatch(L: Lexer, q: State, file: seq<Byte>, at: nat): Match
    requires at <= |file|
  {
    FindRule(L, States(L, q, file, at), |file| - at, 0, None)
  }

  lemma {:induction false} FindRulePrefix(L: Lexer, st: seq<State>, st': seq<State>, i: nat, lp: nat, looking: Option<nat>)
    requires i < |st| && i < |st'|
    requires forall j :: 0 <= j <= i ==> st[j] == st'[j]
    ensures FindRule(L, st, i, lp, looking) == FindRule(L, st', i, lp, looking)
    decreases i, |L.acclist(st[i])| - lp
  {
    var acc := L.acclist(st[i]);
    if lp < |acc| {
      FindRulePrefix(L, st, st', i, lp + 1, looking);
      FindRulePrefix(L, st, st', i, lp + 1, Some(acc[lp].rule));
    } else if i > 0 {
      FindRulePrefix(L, st, st', i - 1, 0, looking);
    }
  }

  lemma {:induction false} FindRuleSkipsJams(L: Lexer, st: seq<State>, m: nat, i: nat)
    requires L.WellFormed() && m <= i < |st|
    requires forall j :: m < j <= i ==> st[j] == L.jam
    ensures FindRule(L, st, i, 0, None) == FindRule(L, st, m, 0, None)
    decreases i
  {
    if m < i {
      FindRuleSkipsJams(L, st, m, i - 1);
    }
  }

  lemma {:induction false} FoundIsRule(L: Lexer, st: seq<State>, i: nat, lp: nat, looking: Option<nat>)
    requires L.WellFormed() && i < |st|
    requires forall j :: 0 <= j <= i ==> st[j] != L.eob
    ensures var r := FindRule(L, st, i, lp, looking);
            r.Found? ==> r.rule != END_OF_BUFFER
    decreases i, |L.acclist(st[i])| - lp
  {
    var acc := L.acclist(st[i]);
    if lp < |acc| {
      FoundIsRule(L, st, i, lp + 1, looking);
      FoundIsRule(L, st, i, lp + 1, Some(acc[lp].rule));
    } else if i > 0 {
      FoundIsRule(L, st, i - 1, 0, looking);
    }
  }

  lemma {:induction false} NeverEob(L: Lexer, q: State, file: seq<Byte>, at: nat, k: nat)
    requires L.WellFormed() && q != L.eob && at + k <= |file|
    ensures StateAfter(L, q, file, at, k) != L.eob
    decreases k
  {
    if k > 0 {
      NeverEob(L, q, file, at, k - 1);
    }
  }

  lemma {:induction false} JamIsForever(L: Lexer, q: State, file: seq<Byte>, at: nat, m: nat, k: nat)
    requires L.WellFormed() && m < k && at + k <= |file|
    requires L.stop(StateAfter(L, q, file, at, m)) || StateAfter(L, q, file, at, m + 1) == L.jam
    ensures StateAfter(L, q, file, at, k) == L.jam
    decreases k
  {
    if m + 1 < k {
      JamIsForever(L, q, file, at, m, k - 1);
    }
  }

  /** No byte after the first m can be consumed, or there is none. */
  ghost predicate CanStop(L: Lexer, q: State, file: seq<Byte>, at: nat, m: nat)
    requires at + m <= |file|
  {
    || at + m == |file|
    || L.stop(StateAfter(L, q, file, at, m))
    || StateAfter(L, q, file, at, m + 1) == L.jam
  }

  /** Stopping early is right: once no further byte can be consumed, the rule is
      the one found by backing up from here. */
  lemma StoppingEarly(L: Lexer, q: State, file: seq<Byte>, at: nat, m: nat)
    requires L.WellFormed() && at + m <= |file| && CanStop(L, q, file, at, m)
    ensures LongestMatch(L, q, file, at) == FindRule(L, States(L, q, file, at), m, 0, None)
  {
    var st := States(L, q, file, at);
    forall j | m < j < |st|
      ensures st[j] == L.jam
    {
      JamIsForever(L, q, file, at, m, j);
    }
    FindRuleSkipsJams(L, st, m, |st| - 1);
  }

  /** After n bytes the automaton has not jammed: some text longer than n may
      still match. */
  ghost predicate Alive(L: Lexer, q: State, file: seq<Byte>, at: nat, n: nat) {
    at + n <= |file| && (n == 0 || StateAfter(L, q, file, at, n) != L.jam)
  }

  lemma AliveBefore(L: Lexer, q: State, file: seq<Byte>, at: nat, n: nat, m: nat)
    requires L.WellFormed() && Alive(L, q, file, at, m) && n <= m
    ensures Alive(L, q, file, at, n)
  {
    if 0 < n < m && StateAfter(L, q, file, at, n) == L.jam {
      JamIsForever(L, q, file, at, n - 1, m);
    }
  }

  /** A match ends where the automaton was alive. */
  lemma {:induction false} FoundIsAlive(L: Lexer, st: seq<State>, i: nat, lp: nat, looking: Option<nat>)
    requires L.WellFormed() && i < |st|
    ensures var r := FindRule(L, st, i, lp, looking);
            r.Found? ==> st[r.length] != L.jam
    decreases i, |L.acclist(st[i])| - lp
  {
    var acc := L.acclist(st[i]);
    if lp < |acc| {
      FoundIsAlive(L, st, i, lp + 1, looking);
      FoundIsAlive(L, st, i, lp + 1, Some(acc[lp].rule));
    } else if i > 0 {
      FoundIsAlive(L, st, i - 1, 0, looking);
    }
  }

  lemma LongestIsAlive(L: Lexer, q: State, file: seq<Byte>, at: nat)
    requires L.WellFormed() && at <= |file|
    ensures var r := LongestMatch(L, q, file, at);
            r.Found? ==> Alive(L, q, file, at, r.length)
  {
    FoundIsAlive(L, States(L, q, file, at), |file| - at, 0, None);
  }

  /** Matching at a position looks at least limit - 1 bytes ahead. */
  ghost predicate LooksFar(L: Lexer, q: State, file: seq<Byte>, at: nat, limit: nat) {
    limit <= 1 || Alive(L, q, file, at, limit - 1)
  }

  // --- the sequence of tokens --------------------------------------------------

  /** Everything the next tokens depend on: what was delivered, the
      beginning-of-line flag, the place in this file, and the files to come. */
  datatype Lexing = Lexing(history: seq<Token>, atBol: bool, file: seq<Byte>, at: nat, files: seq<seq<Byte>>)

  datatype Outcome = Delivered(token: Token) | EndOfInput | NoRule | Fatal

  ghost function BolAfter(bol: bool, text: seq<Byte>): bool {
    if text == [] then bol else text[|text| - 1] == NEWLINE
  }

  ghost function Step(L: Lexer, s: Lexing): (r: (Outcome, Lexing))
    requires s.at <= |s.file|
    ensures r.1.at <= |r.1.file|
    decreases |s.files|
  {
    if s.at < |s.file| then
      match LongestMatch(L, L.start(s.history, s.atBol), s.file, s.at)
      case Stuck => (NoRule, s)
      case Found(rule, n) =>
        var text := s.file[s.at..s.at + n];
        (Delivered(Token(rule, text)),
         Lexing(s.history + [Token(rule, text)], BolAfter(s.atBol, text), s.file, s.at + n, s.files))
    else if s.files != [] then
      Step(L, Lexing(s.history, true, s.files[0], 0, s.files[1..]))
    else
      (EndOfInput, Lexing(s.history, true, s.file, s.at, []))
  }

  /** The lexing after a token of n bytes. */
  ghost function After(s: Lexing, t: Token, n: nat): Lexing {
    Lexing(s.history + [t], BolAfter(s.atBol, t.text), s.file, s.at + n, s.files)
  }

  /** The cases of Step, one by one. */
  lemma StepCases(L: Lexer, s: Lexing)
    requires s.at <= |s.file|
    ensures s.at == |s.file| && s.files != [] ==>
              Step(L, s) == Step(L, Lexing(s.history, true, s.files[0], 0, s.files[1..]))
    ensures s.at == |s.file| && s.files == [] ==>
              Step(L, s) == (EndOfInput, Lexing(s.history, true, s.file, s.at, []))
    ensures s.at < |s.file| ==>
              match LongestMatch(L, L.start(s.history, s.atBol), s.file, s.at)
              case Stuck => Step(L, s) == (NoRule, s)
              case Found(rule, n) =>
                var t := Token(rule, s.file[s.at..s.at + n]);
                Step(L, s) == (Delivered(t), After(s, t, n))
  {
  }

  /** The outcomes of the first n calls; a run ends with the first outcome that
      is not a token. */
  ghost function Run(L: Lexer, s: Lexing, n: nat): seq<Outcome>
    requires s.at <= |s.file|
    decreases n
  {
    if n == 0 then []
    else
      var (o, s') := Step(L, s);
      if o.Delivered? then [o] + Run(L, s', n - 1) else [o]
  }

  /** The next token, or the search for it, needs limit - 1 bytes at once. */
  ghost predicate FarStep(L: Lexer, s: Lexing, limit: nat)
    requires s.at <= |s.file|
    decreases |s.files|
  {
    || LooksFar(L, L.start(s.history, s.atBol), s.file, s.at, limit)
    || (s.at == |s.file| && s.files != [] && FarStep(L, Lexing(s.history, true, s.files[0], 0, s.files[1..]), limit))
  }

  /** Some of the first n tokens does. */
  ghost predicate FarRun(L: Lexer, s: Lexing, n: nat, limit: nat)
    requires s.at <= |s.file|
    decreases n
  {
    n > 0 && (FarStep(L, s, limit) || (Step(L, s).0.Delivered? && FarRun(L, Step(L, s).1, n - 1, limit)))
  }

  /** A run and what makes it look far, from its first token on. */
  lemma RunNext(L: Lexer, s: Lexing, n: nat, limit: nat)
    requires s.at <= |s.file|
    ensures Run(L, s, 0) == []
    ensures n > 0 ==>
              var (o, s') := Step(L, s);
              && (!o.Delivered? ==> Run(L, s, n) == [o])
              && (o.Delivered? ==>
                    Run(L, s, n) == [o] + Run(L, s', n - 1) && (FarRun(L, s', n - 1, limit) ==> FarRun(L, s, n, limit)))
              && (FarStep(L, s, limit) ==> FarRun(L, s, n, limit))
  {
    hide FarStep;
  }

  // --- what the specification itself promises ----------------------------------

  /** The flag says that the next byte is the first of its file or follows a
      newline. */
  ghost predicate AtLineBegin(s: Lexing) {
    s.at <= |s.file| && (s.atBol <==> s.at == 0 || s.file[s.at - 1] == 10)
  }

  /** On to the first file with something left. */
  ghost function Skip(s: Lexing): Lexing
    decreases |s.files|
  {
    if s.at == |s.file| && s.files != [] then Skip(Lexing(s.history, true, s.files[0], 0, s.files[1..])) else s
  }

  /** What a call delivers, in terms of the files: the longest match from where a
      token begins, in the start state for whether a line begins there. */
  lemma {:induction false} StepIs(L: Lexer, s: Lexing)
    requires AtLineBegin(s)
    ensures var p := Skip(s);
            && AtLineBegin(p) && p.history == s.history
            && match Step(L, s)
               case (Delivered(t), s') =>
                 && p.at < |p.file| && p.at + |t.text| <= |p.file| && t.text == p.file[p.at..p.at + |t.text|]
                 && LongestMatch(L, L.start(s.history, p.at == 0 || p.file[p.at - 1] == 10), p.file, p.at)
                    == Found(t.rule, |t.text|)
                 && AtLineBegin(s') && s'.history == s.history + [t]
                 && s'.file == p.file && s'.at == p.at + |t.text| && s'.files == p.files
               case (NoRule, _) =>
                 && p.at < |p.file|
                 && LongestMatch(L, L.start(s.history, p.at == 0 || p.file[p.at - 1] == 10), p.file, p.at) == Stuck
               case (EndOfInput, _) => p.at == |p.file| && p.files == []
               case (Fatal, _) => false
    decreases |s.files|
  {
    hide LongestMatch;
    if s.at == |s.file| && s.files != [] {
      StepIs(L, Lexing(s.history, true, s.files[0], 0, s.files[1..]));
    }
  }

  /** What is left to lex after the first n tokens. */
  ghost function Rest(L: Lexer, s: Lexing, n: nat): (r: Lexing)
    requires s.at <= |s.file|
    ensures r.at <= |r.file|
    decreases n
  {
    if n == 0 || !Step(L, s).0.Delivered? then s else Rest(L, Step(L, s).1, n - 1)
  }

  ghost function Tokens(outcomes: seq<Outcome>): seq<Token> {
    if outcomes == [] then []
    else (if outcomes[0].Delivered? then [outcomes[0].token] else []) + Tokens(outcomes[1..])
  }

  /** Along a run the flag is right before every token, and the rules are those of
      a start state that knows the tokens so far and whether a line begins. */
  lemma {:induction false} RunBeginsLines(L: Lexer, s: Lexing, n: nat, i: nat)
    requires AtLineBegin(s) && i < |Run(L, s, n)|
    ensures var out, r := Run(L, s, n), Rest(L, s, i);
            AtLineBegin(r) && out[i] == Step(L, r).0 && r.history == s.history + Tokens(out[..i])
    decreases n
  {
    hide *;
    LineBeginMeans(s);
    var (o, s') := Step(L, s);
    StepIs(L, s);
    RunNext(L, s, n, 0);
    RestNext(L, s, i);
    if i > 0 {
      RunBeginsLines(L, s', n - 1, i - 1);
      TokensNext(o, Run(L, s', n - 1), i);
      assert (s.history + [o.token]) + Tokens(Run(L, s', n - 1)[..i - 1])
          == s.history + ([o.token] + Tokens(Run(L, s', n - 1)[..i - 1]));
    } else {
      NoTokens(Run(L, s, n));
    }
  }

  lemma RestNext(L: Lexer, s: Lexing, i: nat)
    requires s.at <= |s.file|
    ensures Rest(L, s, 0) == s
    ensures i > 0 && Step(L, s).0.Delivered? ==> Rest(L, s, i) == Rest(L, Step(L, s).1, i - 1)
  {
  }

  lemma TokensNext(o: Outcome, tail: seq<Outcome>, i: nat)
    requires o.Delivered? && 0 < i <= |tail| + 1
    ensures Tokens(([o] + tail)[..i]) == [o.token] + Tokens(tail[..i - 1])
  {
    assert ([o] + tail)[..i][1..] == tail[..i - 1];
  }

  lemma NoTokens(out: seq<Outcome>)
    ensures Tokens(out[..0]) == []
  {
  }

  lemma LineBeginMeans(s: Lexing)
    requires AtLineBegin(s)
    ensures s.at <= |s.file|
  {
  }

  ghost function Concat(files: seq<seq<Byte>>): seq<Byte> {
    if files == [] then [] else files[0] + Concat(files[1..])
  }

  ghost function Texts(outcomes: seq<Outcome>): seq<Byte> {
    if outcomes == [] then []
    else (if outcomes[0].Delivered? then outcomes[0].token.text else []) + Texts(outcomes[1..])
  }

  /** All the input that is left. */
  ghost function Left(s: Lexing): seq<Byte>
    requires s.at <= |s.file|
  {
    s.file[s.at..] + Concat(s.files)
  }

  /** One call takes exactly its token's text off the front of what is left. */
  lemma {:induction false} StepConsumes(L: Lexer, s: Lexing)
    requires s.at <= |s.file|
    ensures var (o, s') := Step(L, s);
            && (o.Delivered? ==> Left(s) == o.token.text + Left(s'))
            && (o.EndOfInput? ==> Left(s) == [])
    decreases |s.files|
  {
    if s.at == |s.file| && s.files != [] {
      var s1 := Lexing(s.history, true, s.files[0], 0, s.files[1..]);
      StepConsumes(L, s1);
      assert Left(s) == Left(s1);
    } else if s.at < |s.file| {
      var m := LongestMatch(L, L.start(s.history, s.atBol), s.file, s.at);
      if m.Found? {
        var text, rest := s.file[s.at..s.at + m.length], s.file[s.at + m.length..];
        assert s.file[s.at..] == text + rest;
        assert (text + rest) + Concat(s.files) == text + (rest + Concat(s.files));
      }
    }
  }

  /** No byte is lost, repeated or reordered: the texts delivered are always a
      prefix of the concatenated files, and all of them once the run ends in
      the end of input. */
  lemma {:induction false} RunConserves(L: Lexer, s: Lexing, n: nat)
    requires s.at <= |s.file|
    ensures var out := Run(L, s, n);
            && Texts(out) <= Left(s)
            && (out != [] && out[|out| - 1].EndOfInput? ==> Texts(out) == Left(s))
    decreases n
  {
    hide Step, LongestMatch;
    if n > 0 {
      var (o, s') := Step(L, s);
      StepConsumes(L, s);
      if o.Delivered? {
        RunConserves(L, s', n - 1);
        var tail := Run(L, s', n - 1);
        assert ([o] + tail)[1..] == tail;
      } else {
        assert [o][1..] == [];
      }
    }
  }

  /** An entry at which a rule matches in full: an ordinary one, or the end of a
      rule with trailing context. (i, p) is the first such, backing up from top. */
  ghost predicate FirstFull(L: Lexer, st: seq<State>, top: nat, i: nat, p: nat)
    requires top < |st|
  {
    && i <= top && p < |L.acclist(st[i])| && !L.acclist(st[i])[p].TrailHead?
    && (forall j :: i < j <= top ==> OnlyHeads(L.acclist(st[j]), |L.acclist(st[j])|))
    && OnlyHeads(L.acclist(st[i]), p)
  }

  ghost predicate OnlyHeads(acc: seq<Accept>, upTo: nat) {
    forall q :: 0 <= q < upTo && q < |acc| ==> acc[q].TrailHead?
  }

  /** The head of rule r is among the entries from a place on. */
  ghost predicate HeadFrom(acc: seq<Accept>, from: nat, r: nat) {
    exists q :: from <= q < |acc| && acc[q] == TrailHead(r)
  }

  /** The same for state j, of which only the entries behind p count if it is i. */
  ghost predicate HeadAt(L: Lexer, st: seq<State>, i: nat, p: nat, r: nat, j: nat)
    requires j < |st|
  {
    HeadFrom(L.acclist(st[j]), if j == i then p else 0, r)
  }

  /** Where the head of r is first found behind entry p of state i. */
  ghost predicate NearestHead(L: Lexer, st: seq<State>, i: nat, p: nat, r: nat, n: nat)
    requires i < |st|
  {
    n <= i && HeadAt(L, st, i, p, r, n) && forall j :: n < j <= i ==> !HeadAt(L, st, i, p, r, j)
  }

  ghost predicate NoHead(L: Lexer, st: seq<State>, i: nat, p: nat, r: nat)
    requires i < |st|
  {
    forall j :: 0 <= j <= i ==> !HeadAt(L, st, i, p, r, j)
  }

  /** How much the rule of a full match takes: an ordinary one all of it, one
      with trailing context the longest part at which its head may end. */
  ghost predicate Takes(L: Lexer, st: seq<State>, i: nat, p: nat, m: Match)
    requires i < |st| && p < |L.acclist(st[i])|
  {
    match L.acclist(st[i])[p]
    case Plain(r) => m == Found(r, i)
    case TrailEnd(r) =>
      if m.Found? then m.rule == r && NearestHead(L, st, i, p + 1, r, m.length) else NoHead(L, st, i, p + 1, r)
    case TrailHead(_) => false
  }

  ghost predicate NoFull(L: Lexer, st: seq<State>, top: nat)
    requires top < |st|
  {
    forall j :: 0 <= j <= top ==> OnlyHeads(L.acclist(st[j]), |L.acclist(st[j])|)
  }

  /** What a match is, without backing up: the longest text with a full match
      counts, and its first full entry; without any, there is no match. */
  ghost predicate Selects(L: Lexer, st: seq<State>, top: nat, m: Match)
    requires top < |st|
  {
    || (m == Stuck && NoFull(L, st, top))
    || exists i: nat, p: nat :: FirstFull(L, st, top, i, p) && Takes(L, st, i, p, m)
  }

  lemma {:induction false} LookingFinds(L: Lexer, st: seq<State>, i: nat, lp: nat, r: nat)
    requires i < |st|
    ensures match FindRule(L, st, i, lp, Some(r))
            case Found(rule, n) => rule == r && NearestHead(L, st, i, lp, r, n)
            case Stuck => NoHead(L, st, i, lp, r)
    decreases i, |L.acclist(st[i])| - lp
  {
    var acc := L.acclist(st[i]);
    if lp < |acc| {
      if acc[lp] != TrailHead(r) {
        LookingFinds(L, st, i, lp + 1, r);
        assert HeadFrom(acc, lp, r) <==> HeadFrom(acc, lp + 1, r);
        assert forall j :: 0 <= j < i ==> HeadAt(L, st, i, lp, r, j) == HeadAt(L, st, i, lp + 1, r, j);
        assert HeadAt(L, st, i, lp, r, i) == HeadAt(L, st, i, lp + 1, r, i);
      } else {
        assert HeadAt(L, st, i, lp, r, i);
      }
    } else {
      assert !HeadAt(L, st, i, lp, r, i);
      if i > 0 {
        LookingFinds(L, st, i - 1, 0, r);
        assert forall j :: 0 <= j < i ==> HeadAt(L, st, i, lp, r, j) == HeadAt(L, st, i - 1, 0, r, j);
      }
    }
  }

  lemma {:induction false} BackingUpSelects(L: Lexer, st: seq<State>, top: nat, i: nat, lp: nat)
    requires i <= top < |st| && lp <= |L.acclist(st[i])|
    requires forall j :: i < j <= top ==> OnlyHeads(L.acclist(st[j]), |L.acclist(st[j])|)
    requires OnlyHeads(L.acclist(st[i]), lp)
    ensures Selects(L, st, top, FindRule(L, st, i, lp, None))
    decreases i, |L.acclist(st[i])| - lp
  {
    var acc := L.acclist(st[i]);
    if lp < |acc| {
      match acc[lp]
      case TrailHead(_) => BackingUpSelects(L, st, top, i, lp + 1);
      case TrailEnd(r) =>
        assert FirstFull(L, st, top, i, lp);
        LookingFinds(L, st, i, lp + 1, r);
        assert Takes(L, st, i, lp, FindRule(L, st, i, lp, None));
      case Plain(r) =>
        assert FirstFull(L, st, top, i, lp) && Takes(L, st, i, lp, Found(r, i));
    } else if i > 0 {
      BackingUpSelects(L, st, top, i - 1, 0);
    }
  }

  lemma FirstFullOnce(L: Lexer, st: seq<State>, top: nat, i: nat, p: nat)
    requires top < |st| && FirstFull(L, st, top, i, p)
    ensures !NoFull(L, st, top)
    ensures forall j: nat, q: nat :: FirstFull(L, st, top, j, q) ==> j == i && q == p
  {
    assert !OnlyHeads(L.acclist(st[i]), |L.acclist(st[i])|);
    forall j: nat, q: nat | FirstFull(L, st, top, j, q)
      ensures j == i && q == p
    {
      assert !OnlyHeads(L.acclist(st[j]), |L.acclist(st[j])|);
    }
  }

  lemma SelectsOnce(L: Lexer, st: seq<State>, top: nat, m: Match, m': Match)
    requires top < |st| && Selects(L, st, top, m) && Selects(L, st, top, m')
    ensures m == m'
  {
    hide NoFull;
    if i: nat, p: nat :| FirstFull(L, st, top, i, p) {
      FirstFullOnce(L, st, top, i, p);
    }
  }

  /** For all tables, trailing context included: backing up finds exactly the
      match that is selected. */
  lemma SelectsIff(L: Lexer, st: seq<State>, top: nat, m: Match)
    requires top < |st|
    ensures m == FindRule(L, st, top, 0, None) <==> Selects(L, st, top, m)
  {
    BackingUpSelects(L, st, top, top, 0);
    if Selects(L, st, top, m) {
      SelectsOnce(L, st, top, m, FindRule(L, st, top, 0, None));
    }
  }
}
