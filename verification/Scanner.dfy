// The scanner core: one buffer with two end-of-buffer sentinels, a stack of
// DFA states, and a refill that may deliver the input in pieces of any size.
module Scanner {
  import opened Arithmetic
  import opened LexSpec

  datatype Status = New | Normal | EofPending

  datatype EobAction = ContinueScan | LastMatch | EndOfFile | Overflow

  datatype EobResult = Rematch | ChooseRule | Eof | Overrun

  datatype ScanResult = Matched(rule: nat) | AtEof | NoMatch | Failed

  class Scanner {
    const L: Lexer
    const bufSize: nat
    const readMax: nat
    const lmax: nat
    const buf: array<Byte>
    const stateBuf: array<State>

    // the buffer and the cursor in it
    var nChars: nat
    var bufChars: nat
    var cBufP: nat
    var textPtr: nat
    var hold: Byte
    var status: Status
    var atBol: bool
    var statePtr: nat

    // the input: the current file, how much of it was read, the files to come
    var file: seq<Byte>
    var pos: nat
    var files: seq<seq<Byte>>
    var history: seq<Token>

    ghost predicate Shape() {
      && buf.Length == bufSize + 2 && stateBuf.Length == bufSize + 2
      && 1 <= bufSize && 1 <= readMax
    }

    /** From bp on, the buffer holds what was read of the file from position at
        on, followed by both sentinels. */
    ghost predicate Filled(bp: nat, at: nat)
      reads `nChars, `bufChars, `status, `file, `pos, buf
    {
      && Shape()
      && bp <= nChars < bufSize
      && at + (nChars - bp) == pos <= |file|
      && buf[nChars] == 0 && buf[nChars + 1] == 0
      && (forall i :: bp <= i < nChars ==> buf[i] == file[at + i - bp])
      && (status == EofPending ==> pos == |file|)
      && (status == New ==> nChars == bufChars == 0)
    }

    /** Filled, but for the byte at the cursor, which was replaced by the
        terminator of yytext and which hold stands in for. */
    ghost predicate Held(bp: nat, at: nat)
      reads `nChars, `bufChars, `status, `file, `pos, `cBufP, `hold, buf
    {
      && Shape()
      && bp <= nChars < bufSize && cBufP <= nChars + 1
      && at + (nChars - bp) == pos <= |file|
      && (if cBufP == nChars then hold else buf[nChars]) == 0
      && (if cBufP == nChars + 1 then hold else buf[nChars + 1]) == 0
      && (bp <= cBufP < nChars ==> hold == file[at + cBufP - bp])
      && (forall i :: bp <= i < nChars && i != cBufP ==> buf[i] == file[at + i - bp])
      && (status == EofPending ==> pos == |file|)
      && (status == New ==> nChars == bufChars == 0)
    }

    /** The state stack is in step with the cursor: entry i is the state after
        i bytes. */
    ghost predicate InStep(at: nat, q: State, k: nat)
      reads `file, stateBuf
    {
      && at + k <= |file| && k < stateBuf.Length
      && forall i :: 0 <= i <= k ==> stateBuf[i] == StateAfter(L, q, file, at, i)
    }

    ghost predicate OnPath(at: nat, q: State, k: nat)
      reads `file, `statePtr, stateBuf
    {
      InStep(at, q, k) && statePtr == k + 1
    }

    // --- the match loop --------------------------------------------------------

    method Push(q: State)
      requires statePtr < stateBuf.Length
      modifies `statePtr, stateBuf
      ensures statePtr == old(statePtr) + 1 && stateBuf[old(statePtr)] == q
      ensures forall i :: 0 <= i < stateBuf.Length && i != old(statePtr) ==> stateBuf[i] == old(stateBuf[i])
    {
      stateBuf[statePtr] := q;
      statePtr := statePtr + 1;
    }

    /** One transition of the match loop, on a byte of the file or on a zero. */
    lemma OneMove(c: Byte, at: nat, q: State, m: nat)
      requires L.WellFormed() && q != L.eob && at + m <= |file|
      ensures L.move(L.eob, c) == L.jam && L.stop(L.jam) && !L.stop(L.eob)
      ensures c == 0 ==> L.move(StateAfter(L, q, file, at, m), c) == L.eob
      ensures c != 0 && at + m < |file| && c == file[at + m] ==>
                var next := L.move(StateAfter(L, q, file, at, m), c);
                && next == StateAfter(L, q, file, at, m + 1)
                && (L.stop(next) ==> CanStop(L, q, file, at, m + 1))
                && (!L.stop(next) ==> Alive(L, q, file, at, m + 1))
    {
      NeverEob(L, q, file, at, m);
    }

    /** yy_match: consumes input until the state has no way out, or until an end
        of buffer character, real NUL or sentinel, has led to the end-of-buffer
        state and the character behind it has jammed. */
    method RunDfa(bp: nat, start: nat, ghost at: nat, ghost q: State)
      returns (cp: nat, ghost m: nat, ghost hitEob: bool)
      requires L.WellFormed() && Filled(bp, at) && q != L.eob
      requires bp <= start <= nChars && OnPath(at, q, start - bp) && Alive(L, q, file, at, start - bp)
      modifies `statePtr, stateBuf
      ensures start - bp <= m && bp + m <= nChars && InStep(at, q, m)
      ensures hitEob ==> Alive(L, q, file, at, m)
      ensures !hitEob ==> start < cp == bp + m && statePtr == m + 1 && CanStop(L, q, file, at, m)
      ensures hitEob ==> cp == bp + m + 2 && statePtr == m + 3 && statePtr <= stateBuf.Length && buf[bp + m] == 0 &&
                         stateBuf[m + 1] == L.eob && stateBuf[m + 2] == L.jam
    {
      hide Lexer.WellFormed, StateAfter, Alive, CanStop;
      cp, m, hitEob := start, start - bp, false;
      var current := stateBuf[statePtr - 1];
      while true
        invariant start - bp <= m && bp + m <= nChars && statePtr == cp - bp + 1
        invariant cp == bp + m + (if hitEob then 1 else 0)
        invariant current == stateBuf[statePtr - 1]
        invariant InStep(at, q, m) && Alive(L, q, file, at, m)
        invariant hitEob ==> current == L.eob && buf[bp + m] == 0
        decreases nChars + 1 - cp
      {
        var c := buf[cp];
        OneMove(c, at, q, m);
        current := L.move(current, c);
        Push(current);
        cp := cp + 1;
        if !hitEob {
          if c == 0 {
            hitEob := true;
          } else {
            m := m + 1;
          }
        }
        if L.stop(current) {
          break;
        }
      }
    }

    /** yy_find_action and find_rule: the rule, and the cursor behind its text. */
    method FindAction(cp: nat) returns (found: bool, act: nat, end: nat)
      requires 0 < statePtr <= stateBuf.Length && statePtr - 1 <= cp
      modifies `statePtr
      ensures var r := FindRule(L, stateBuf[..], old(statePtr) - 1, 0, None);
              && (found <==> r.Found?)
              && (found ==> act == r.rule && end == cp - (old(statePtr) - 1 - r.length) && end <= cp)
    {
      ghost var st := stateBuf[..];
      statePtr := statePtr - 1;
      ghost var top := statePtr;
      var current := stateBuf[statePtr];
      var lp: nat := 0;
      var looking := None;
      end, act := cp, 0;
      while true
        invariant statePtr <= top && end == cp - (top - statePtr)
        invariant current == st[statePtr]
        invariant FindRule(L, st, statePtr, lp, looking) == FindRule(L, st, top, 0, None)
        decreases statePtr, |L.acclist(current)| - lp
      {
        var acc := L.acclist(current);
        if lp < |acc| {
          match acc[lp] {
            case TrailHead(r) =>
              if looking == Some(r) {
                return true, r, end;
              }
            case TrailEnd(r) =>
              if looking == None {
                looking := Some(r);
              }
            case Plain(r) =>
              if looking == None {
                return true, r, end;
              }
          }
          lp := lp + 1;
        } else if statePtr == 0 {
          return false, 0, end;
        } else {
          end := end - 1;
          statePtr := statePtr - 1;
          current := stateBuf[statePtr];
          lp := 0;
        }
      }
    }

    /** yy_get_previous_state: replays the text up to the cursor, taking zero
        bytes for what they are here, real NULs. */
    method GetPreviousState(ghost at: nat)
      requires Filled(textPtr, at) && textPtr <= cBufP <= nChars
      modifies `statePtr, stateBuf
      ensures OnPath(at, L.start(history, atBol), cBufP - textPtr)
    {
      var current := L.start(history, atBol);
      ghost var q := current;
      statePtr := 0;
      Push(current);
      var cp := textPtr;
      while cp < cBufP
        invariant textPtr <= cp <= cBufP
        invariant OnPath(at, q, cp - textPtr) && current == stateBuf[cp - textPtr]
      {
        assert buf[cp] == file[at + cp - textPtr];
        current := L.Real(current, buf[cp]);
        Push(current);
        cp := cp + 1;
      }
    }

    // --- the refill --------------------------------------------------------------

    /** Moves the pending text down to the start of the buffer. */
    method MoveText(count: nat)
      requires textPtr + count <= buf.Length
      modifies buf
      ensures forall i :: 0 <= i < count ==> buf[i] == old(buf[textPtr + i])
    {
      var i := 0;
      while i < count
        invariant 0 <= i <= count
        invariant forall j :: 0 <= j < i ==> buf[j] == old(buf[textPtr + j])
        invariant forall j :: i <= j < buf.Length ==> buf[j] == old(buf[j])
      {
        buf[i] := buf[textPtr + i];
        i := i + 1;
      }
    }

    /** YY_INPUT: some bytes of the file, at least one as long as there are any
        and at most max; 0 only at the end of the file. */
    method Read(into: nat, max: nat) returns (n: nat)
      requires 1 <= max && into + max <= buf.Length && pos <= |file|
      modifies `pos, buf
      ensures n <= max && pos == old(pos) + n <= |file|
      ensures n == 0 <==> old(pos) == |file|
      ensures forall i :: into <= i < into + n ==> buf[i] == file[old(pos) + i - into]
      ensures forall i :: 0 <= i < into ==> buf[i] == old(buf[i])
    {
      if pos == |file| {
        return 0;
      }
      n :| 1 <= n <= max && pos + n <= |file|;
      for i := 0 to n
        invariant pos == old(pos)
        invariant forall j :: into <= j < into + i ==> buf[j] == file[pos + j - into]
        invariant forall j :: 0 <= j < into ==> buf[j] == old(buf[j])
      {
        buf[into + i] := file[pos + i];
      }
      pos := pos + n;
    }

    /** yyrestart: flushes the buffer; the next scan will read. */
    method Restart()
      requires Shape()
      modifies `nChars, `bufChars, `cBufP, `textPtr, `hold, `status, `atBol, buf
      ensures nChars == bufChars == cBufP == textPtr == 0 && hold == 0 && status == New && atBol
      ensures buf[0] == 0 && buf[1] == 0
    {
      bufChars := 0;
      buf[0] := 0;
      buf[1] := 0;
      atBol := true;
      status := New;
      nChars, textPtr, cBufP := bufChars, 0, 0;
      hold := buf[cBufP];
    }

    /** The bytes of the file from at on are in place at the start of the buffer,
        and n of them have been read. */
    ghost predicate InPlace(n: nat, at: nat)
      reads `file, `pos, buf
    {
      && n < bufSize < buf.Length && at + n == pos <= |file|
      && forall i :: 0 <= i < n ==> buf[i] == file[at + i]
    }

    /** The reading part of yy_get_next_buffer: nChars bytes behind the moved ones. */
    method ReadMore(moved: nat, ghost at: nat) returns (ok: bool)
      requires Shape() && InPlace(moved, at) && (status == EofPending ==> pos == |file|)
      modifies `nChars, `bufChars, `pos, buf
      ensures !ok ==> bufSize <= moved + 1
      ensures ok ==> InPlace(moved + nChars, at) && (nChars == 0 ==> old(pos) == |file|)
    {
      if status == EofPending {
        bufChars, nChars := 0, 0;
        return true;
      }
      var toRead := bufSize - moved - 1;
      if toRead <= 0 {
        return false;
      }
      if toRead > readMax {
        toRead := readMax;
      }
      nChars := Read(moved, toRead);
      bufChars := nChars;
      return true;
    }

    /** yy_get_next_buffer, called when the first sentinel was reached: keeps the
        pending text, reads more behind it, and says how to go on. What the
        buffer stands for is the same as before. */
    method GetNextBuffer(ghost at: nat) returns (r: EobAction)
      requires Filled(textPtr, at) && status != New
      modifies `nChars, `bufChars, `cBufP, `textPtr, `hold, `status, `atBol, `pos, buf
      ensures r == Overflow ==> bufSize <= old(nChars - textPtr) + 1
      ensures r != Overflow ==> Filled(0, at) && textPtr == 0 && old(pos) <= pos
      ensures r == ContinueScan || r == LastMatch ==> status != New && atBol == old(atBol)
      ensures r == LastMatch ==> nChars == old(nChars - textPtr)
      ensures r == ContinueScan ==> old(pos) < pos && old(nChars - textPtr) <= nChars
      ensures r == LastMatch ==> pos == |file| && 0 < nChars
      ensures r == EndOfFile ==> at == |file| && cBufP == 0 && hold == 0 && status == New && atBol
    {
      var moved := nChars - textPtr;
      MoveText(moved);
      var ok := ReadMore(moved, at);
      if !ok {
        return Overflow;
      }
      if nChars > 0 {
        r := ContinueScan;
      } else if moved == 0 {
        r := EndOfFile;
        Restart();
      } else {
        r := LastMatch;
        status := EofPending;
      }
      nChars := nChars + moved;
      buf[nChars] := 0;
      buf[nChars + 1] := 0;
      textPtr := 0;
    }

    // --- from match to action ------------------------------------------------------

    /** YY_DO_BEFORE_ACTION: sets up the text and terminates it in place. */
    method DoBeforeAction(bp: nat, cp: nat, ghost at: nat) returns (tooLarge: bool)
      requires Filled(bp, at) && bp <= cp <= nChars + 1
      modifies `textPtr, `hold, `cBufP, buf
      ensures Held(bp, at) && textPtr == bp && cBufP == cp
      ensures cp < buf.Length && buf[cp] == 0
      ensures forall i :: 0 <= i < buf.Length && i != cp ==> buf[i] == old(buf[i])
      ensures tooLarge <==> lmax <= cp - bp
    {
      textPtr := bp;
      hold := buf[cp];
      buf[cp] := 0;
      cBufP := cp;
      tooLarge := cp - bp >= lmax;
    }

    method RestoreHold(bp: nat, ghost at: nat)
      requires Held(bp, at)
      modifies buf
      ensures Filled(bp, at)
      ensures forall i :: 0 <= i < buf.Length && i != cBufP ==> buf[i] == old(buf[i])
    {
      buf[cBufP] := hold;
    }

    /** yy_try_NUL_trans. */
    method TryNulTrans(ghost at: nat, ghost q: State, ghost m: nat) returns (jammed: bool)
      requires OnPath(at, q, m) && at + m < |file| && file[at + m] == 0 && m + 1 < stateBuf.Length
      modifies `statePtr, stateBuf
      ensures jammed <==> StateAfter(L, q, file, at, m + 1) == L.jam
      ensures OnPath(at, q, if jammed then m else m + 1)
    {
      var next := L.moveNul(stateBuf[statePtr - 1]);
      assert next == StateAfter(L, q, file, at, m + 1);
      jammed := next == L.jam;
      if !jammed {
        Push(next);
      }
    }

    /** A zero byte of the input: replayed and matched as what it is. */
    method MatchRealNul(ghost at: nat, ghost q: State) returns (jammed: bool)
      requires Filled(textPtr, at) && q == L.start(history, atBol)
      requires textPtr < cBufP <= nChars && buf[cBufP - 1] == 0 && Alive(L, q, file, at, cBufP - 1 - textPtr)
      modifies `cBufP, `statePtr, stateBuf
      ensures textPtr <= cBufP && Alive(L, q, file, at, cBufP - textPtr)
      ensures textPtr <= cBufP == (if jammed then old(cBufP) - 1 else old(cBufP))
      ensures OnPath(at, q, cBufP - textPtr)
      ensures jammed ==> CanStop(L, q, file, at, cBufP - textPtr)
    {
      cBufP := cBufP - 1;
      assert file[at + cBufP - textPtr] == 0;
      GetPreviousState(at);
      jammed := TryNulTrans(at, q, cBufP - textPtr);
      if !jammed {
        cBufP := cBufP + 1;
      }
    }

    /** The refill branch of the end-of-buffer action. */
    method Refill(ghost at: nat, ghost q: State) returns (r: EobResult)
      requires Filled(textPtr, at) && q == L.start(history, atBol)
      requires cBufP == nChars + 1 && status != New && Alive(L, q, file, at, nChars - textPtr)
      modifies `nChars, `bufChars, `cBufP, `textPtr, `hold, `status, `atBol, `pos, `statePtr, buf, stateBuf
      ensures r == Overrun ==> bufSize <= old(nChars - textPtr) + 1
      ensures r == Rematch || r == ChooseRule ==> textPtr <= cBufP && Alive(L, q, file, at, cBufP - textPtr)
      ensures r != Overrun ==> Filled(textPtr, at) && old(pos) <= pos
      ensures r == Eof ==> at == |file| && textPtr == cBufP == 0 && hold == 0 && status == New && atBol
      ensures r == Rematch || r == ChooseRule ==>
                atBol == old(atBol) && textPtr <= cBufP <= nChars && OnPath(at, q, cBufP - textPtr)
      ensures r == ChooseRule ==> at < at + (cBufP - textPtr) == |file|
      ensures r == Rematch ==> old(pos) < pos
    {
      hide OnPath, Alive;
      var amount := cBufP - textPtr - 1;
      var act := GetNextBuffer(at);
      match act
      case Overflow =>
        return Overrun;
      case EndOfFile =>
        cBufP := textPtr;
        return Eof;
      case ContinueScan =>
        cBufP := textPtr + amount;
        GetPreviousState(at);
        return Rematch;
      case LastMatch =>
        cBufP := nChars;
        GetPreviousState(at);
        return ChooseRule;
    }

    /** The end-of-buffer action: a real NUL is matched as such; otherwise the
        buffer is refilled, the states replayed, and matching goes on, or, at
        the end of the file, the rule is chosen for what there is. */
    method EndOfBufferAction(ghost at: nat, ghost q: State) returns (r: EobResult)
      requires Filled(textPtr, at) && q == L.start(history, atBol)
      requires textPtr < cBufP <= nChars + 1 && buf[cBufP - 1] == 0 && Alive(L, q, file, at, cBufP - 1 - textPtr)
      modifies `nChars, `bufChars, `cBufP, `textPtr, `hold, `status, `atBol, `pos, `statePtr, buf, stateBuf
      ensures r == Overrun ==> bufSize <= old(cBufP - textPtr)
      ensures r == Rematch || r == ChooseRule ==> textPtr <= cBufP && Alive(L, q, file, at, cBufP - textPtr)
      ensures r != Overrun ==> Filled(textPtr, at) && old(pos) <= pos
      ensures r == Eof ==> at == |file| && textPtr == cBufP == 0 && hold == 0 && status == New && atBol
      ensures r == Rematch || r == ChooseRule ==>
                atBol == old(atBol) && textPtr <= cBufP <= nChars && OnPath(at, q, cBufP - textPtr)
      ensures r == ChooseRule ==> at < |file| && CanStop(L, q, file, at, cBufP - textPtr)
      ensures r == ChooseRule ==> nChars - cBufP <= old(nChars - cBufP + 1)
      ensures r == Rematch && pos == old(pos) ==> nChars - cBufP < old(nChars - cBufP + 1)
    {
      hide OnPath, Alive;
      if status == New {
        nChars := bufChars;
        status := Normal;
      }
      if cBufP <= nChars {
        var jammed := MatchRealNul(at, q);
        return if jammed then ChooseRule else Rematch;
      }
      r := Refill(at, q);
    }

    /** What backing up finds: the end-of-buffer action when its state is on the
        stack, and otherwise the longest match of the file. */
    lemma Chosen(st: seq<State>, text: seq<Byte>, at: nat, q: State, m: nat, hitEob: bool)
      requires L.WellFormed() && q != L.eob && at + m <= |text|
      requires (if hitEob then m + 2 else m) < |st|
      requires forall i :: 0 <= i <= m ==> st[i] == StateAfter(L, q, text, at, i)
      requires hitEob ==> st[m + 1] == L.eob && st[m + 2] == L.jam
      requires !hitEob ==> CanStop(L, q, text, at, m)
      ensures hitEob ==> FindRule(L, st, m + 2, 0, None) == Found(END_OF_BUFFER, m + 1)
      ensures !hitEob ==> var r := FindRule(L, st, m, 0, None);
                r == LongestMatch(L, q, text, at) && (r.Found? ==> r.rule != END_OF_BUFFER)
    {
      if hitEob {
        assert FindRule(L, st, m + 2, 0, None) == FindRule(L, st, m + 1, 0, None);
      } else {
        StoppingEarly(L, q, text, at, m);
        FindRulePrefix(L, st, States(L, q, text, at), m, 0, None);
        forall i | 0 <= i <= m
          ensures st[i] != L.eob
        {
          NeverEob(L, q, text, at, i);
        }
        FoundIsRule(L, st, m, 0, None);
      }
    }

    lemma ChosenOnStack(at: nat, q: State, m: nat, hitEob: bool)
      requires L.WellFormed() && q != L.eob && InStep(at, q, m)
      requires hitEob ==> m + 2 < stateBuf.Length && stateBuf[m + 1] == L.eob && stateBuf[m + 2] == L.jam
      requires !hitEob ==> at + m <= |file| && CanStop(L, q, file, at, m)
      ensures at + m <= |file| && m < stateBuf.Length
      ensures hitEob ==> FindRule(L, stateBuf[..], m + 2, 0, None) == Found(END_OF_BUFFER, m + 1)
      ensures !hitEob ==> var r := FindRule(L, stateBuf[..], m, 0, None);
                r == LongestMatch(L, q, file, at) && (r.Found? ==> r.rule != END_OF_BUFFER && r.length <= m)
    {
      Chosen(stateBuf[..], file, at, q, m, hitEob);
    }

    lemma OnPathMeans(at: nat, q: State, k: nat)
      requires OnPath(at, q, k)
      ensures InStep(at, q, k) && statePtr == k + 1 <= stateBuf.Length && at + k <= |file|
    {
    }

    lemma FilledMeans(bp: nat, at: nat)
      requires Filled(bp, at)
      ensures Shape() && bp <= nChars && nChars + 1 < buf.Length && at + (nChars - bp) == pos <= |file|
    {
    }

    // --- one token -------------------------------------------------------------------

    /** Match, unless only a rule is to be chosen, and back up. */
    method MatchAndFind(bp: nat, start: nat, matching: bool, ghost at: nat, ghost q: State)
      returns (found: bool, act: nat, end: nat)
      requires L.WellFormed() && q != L.eob && Filled(bp, at)
      requires bp <= start <= nChars && OnPath(at, q, start - bp) && Alive(L, q, file, at, start - bp)
      requires !matching ==> CanStop(L, q, file, at, start - bp)
      modifies `statePtr, stateBuf
      ensures found && act == END_OF_BUFFER ==> bp < end && Alive(L, q, file, at, end - 1 - bp)
      ensures found && act != END_OF_BUFFER ==> bp <= end && Alive(L, q, file, at, end - bp)
      ensures !found ==> LongestMatch(L, q, file, at) == Stuck && (matching ==> at < |file|)
      ensures found && act == END_OF_BUFFER ==> matching && start < end <= nChars + 1 && buf[end - 1] == 0
      ensures found && act != END_OF_BUFFER ==>
                bp <= end <= nChars && LongestMatch(L, q, file, at) == Found(act, end - bp) && (matching ==> at < |file|)
    {
      hide *;
      var cp: nat := start;
      ghost var m, hitEob := start - bp, false;
      OnPathMeans(at, q, m);
      FilledMeans(bp, at);
      if matching {
        cp, m, hitEob := RunDfa(bp, start, at, q);
      }
      ChosenOnStack(at, q, m, hitEob);
      LongestIsAlive(L, q, file, at);
      found, act, end := FindAction(cp);
    }

    method PushStart(ghost at: nat)
      requires Shape() && at <= |file|
      modifies `statePtr, stateBuf
      ensures OnPath(at, L.start(history, atBol), 0)
    {
      statePtr := 0;
      Push(L.start(history, atBol));
    }

    /** Where matching stands: k bytes of the token are matched, or they are all
        that is left and a rule is to be chosen. */
    ghost predicate Midway(at: nat, q: State, bp: nat, cp: nat, matching: bool)
      reads `nChars, `bufChars, `status, `file, `pos, `statePtr, buf, stateBuf
    {
      && Filled(bp, at) && bp <= cp <= nChars && OnPath(at, q, cp - bp) && Alive(L, q, file, at, cp - bp)
      && (!matching ==> at < |file| && at + (cp - bp) <= |file| && CanStop(L, q, file, at, cp - bp))
    }

    /** What a token, the end of the file, or giving up leaves behind. */
    ghost predicate Settled(r: ScanResult, at: nat, q: State, bol: bool)
      reads this, buf
    {
      && at <= |file|
      && (r == Failed ==> LooksFar(L, q, file, at, Min(bufSize, lmax)))
      && (r == AtEof ==> at == |file| && Filled(0, at) && cBufP == 0 && hold == 0 && status == New && atBol)
      && (r.Matched? || r == NoMatch ==> atBol == bol && at < |file|)
      && (r == NoMatch ==> LongestMatch(L, q, file, at) == Stuck)
      && (r.Matched? ==>
            Held(textPtr, at) && textPtr <= cBufP <= nChars && cBufP - textPtr < Min(bufSize, lmax)
            && LongestMatch(L, q, file, at) == Found(r.rule, cBufP - textPtr))
    }

    /** Giving up means that matching has looked far ahead. */
    lemma FailsFar(at: nat, q: State, m: nat)
      requires L.WellFormed() && Alive(L, q, file, at, m)
      requires Min(bufSize, lmax) <= m + 1
      ensures LooksFar(L, q, file, at, Min(bufSize, lmax))
    {
      if Min(bufSize, lmax) > 1 {
        AliveBefore(L, q, file, at, Min(bufSize, lmax) - 1, m);
      }
    }

    /** Matching and choosing: a rule settles the token, unless it is the
        end-of-buffer action, which is then to be taken. */
    method ChooseAction(bp: nat, cp: nat, matching: bool, ghost at: nat, ghost q: State) returns (r: Option<ScanResult>)
      requires L.WellFormed() && q == L.start(history, atBol) && q != L.eob
      requires Midway(at, q, bp, cp, matching)
      modifies `cBufP, `textPtr, `hold, `statePtr, buf, stateBuf
      ensures r.Some? ==> Settled(r.value, at, q, atBol)
      ensures r == None ==>
                && matching && textPtr == bp && cp < cBufP <= nChars + 1 && Filled(textPtr, at)
                && buf[cBufP - 1] == 0 && Alive(L, q, file, at, cBufP - 1 - textPtr)
    {
      hide Filled, Held, OnPath, CanStop, LongestMatch, Lexer.WellFormed, Alive, LooksFar;
      FilledMeans(bp, at);
      var found, act, end := MatchAndFind(bp, cp, matching, at, q);
      if !found {
        return Some(NoMatch);
      }
      var tooLarge := DoBeforeAction(bp, end, at);
      if tooLarge {
        FailsFar(at, q, if act == END_OF_BUFFER then end - 1 - bp else end - bp);
        return Some(Failed);
      }
      if act != END_OF_BUFFER {
        return Some(Matched(act));
      }
      RestoreHold(bp, at);
      return None;
    }

    /** Once through matching, choosing, and the end-of-buffer action if that is
        what was chosen. */
    method OneAction(bp: nat, cp: nat, matching: bool, ghost at: nat, ghost q: State)
      returns (r: Option<ScanResult>, bp': nat, cp': nat, matching': bool)
      requires L.WellFormed() && q == L.start(history, atBol) && q != L.eob
      requires Midway(at, q, bp, cp, matching)
      modifies `nChars, `bufChars, `cBufP, `textPtr, `hold, `status, `atBol, `pos, `statePtr, buf, stateBuf
      ensures r.Some? ==> Settled(r.value, at, q, old(atBol))
      ensures r == None ==> Midway(at, q, bp', cp', matching') && atBol == old(atBol)
      ensures r == None ==>
                || old(pos) < pos
                || (old(pos) == pos && nChars - cp' < old(nChars) - cp)
                || (old(pos) == pos && nChars - cp' == old(nChars) - cp && !matching' && matching)
    {
      hide Filled, Held, OnPath, CanStop, LongestMatch, Lexer.WellFormed, Alive, LooksFar;
      bp', cp', matching' := bp, cp, matching;
      r := ChooseAction(bp, cp, matching, at, q);
      if r.Some? {
        return;
      }
      FilledMeans(textPtr, at);
      ghost var looked := cBufP - 1 - textPtr;
      var next := EndOfBufferAction(at, q);
      if next == Overrun {
        FailsFar(at, q, looked);
        return Some(Failed), bp', cp', matching';
      }
      if next == Eof {
        return Some(AtEof), bp', cp', matching';
      }
      FilledMeans(textPtr, at);
      return None, textPtr, cBufP, next == Rematch;
    }

    /** From the start of a token to its rule: matching, choosing, and as many
        end-of-buffer actions as it takes. Whatever the buffer held and however
        the reads went, the match is the longest one in the whole file. */
    method ScanToken(ghost at: nat) returns (r: ScanResult)
      requires L.WellFormed() && Filled(cBufP, at)
      modifies `nChars, `bufChars, `cBufP, `textPtr, `hold, `status, `atBol, `pos, `statePtr, buf, stateBuf
      ensures Settled(r, at, L.start(history, old(atBol)), old(atBol))
    {
      hide *;
      ghost var q := L.start(history, atBol);
      StartIsNotEob(history, atBol);
      var bp: nat, cp: nat, matching := cBufP, cBufP, true;
      FilledMeans(bp, at);
      PushStart(at);
      MidwayAtStart(at, q, bp);
      while true
        invariant Midway(at, q, bp, cp, matching) && atBol == old(atBol)
        decreases |file| - pos, nChars - cp, matching
      {
        MidwayMeans(at, q, bp, cp, matching);
        var outcome;
        outcome, bp, cp, matching := OneAction(bp, cp, matching, at, q);
        if outcome.Some? {
          return outcome.value;
        }
        MidwayMeans(at, q, bp, cp, matching);
      }
    }

    lemma MidwayAtStart(at: nat, q: State, bp: nat)
      requires Filled(bp, at) && OnPath(at, q, 0)
      ensures Midway(at, q, bp, bp, true)
    {
    }

    lemma MidwayMeans(at: nat, q: State, bp: nat, cp: nat, matching: bool)
      requires Midway(at, q, bp, cp, matching)
      ensures bp <= cp <= nChars && at <= pos <= |file|
    {
    }

    lemma StartIsNotEob(h: seq<Token>, b: bool)
      requires L.WellFormed()
      ensures L.start(h, b) != L.eob
    {
    }

    // --- yylex -------------------------------------------------------------------------

    ghost predicate Valid()
      reads this, buf
    {
      cBufP <= nChars && nChars - cBufP <= pos && Held(cBufP, At())
    }

    /** The position in the file of the byte at the cursor. */
    ghost function At(): nat
      requires nChars - cBufP <= pos
      reads `nChars, `cBufP, `pos
    {
      pos - (nChars - cBufP)
    }

    /** What the scanner stands for: buffer, chunks and flags are gone. */
    ghost function Abs(): Lexing
      requires nChars - cBufP <= pos
      reads `nChars, `cBufP, `pos, `history, `atBol, `file, `files
    {
      Lexing(history, atBol, file, At(), files)
    }

    constructor (L: Lexer, bufSize: nat, readMax: nat, lmax: nat, file: seq<Byte>, files: seq<seq<Byte>>)
      requires 1 <= bufSize && 1 <= readMax
      ensures Valid() && Abs() == Lexing([], true, file, 0, files)
      ensures this.L == L && this.bufSize == bufSize && this.lmax == lmax
      ensures fresh(buf) && fresh(stateBuf)
    {
      this.L, this.bufSize, this.readMax, this.lmax := L, bufSize, readMax, lmax;
      buf := new Byte[bufSize + 2](_ => 0);
      stateBuf := new State[bufSize + 2];
      this.file, this.pos, this.files, this.history := file, 0, files, [];
      nChars, bufChars, cBufP, textPtr, hold, status, atBol, statePtr := 0, 0, 0, 0, 0, New, true, 0;
    }

    /** YY_NEW_FILE after yywrap opened the next file. */
    method NewFile()
      requires Shape() && files != []
      modifies `nChars, `bufChars, `cBufP, `textPtr, `hold, `status, `atBol, `pos, `file, `files, buf
      ensures Valid() && Abs() == Lexing(history, true, old(files)[0], 0, old(files)[1..])
    {
      file, pos, files := files[0], 0, files[1..];
      Restart();
    }

    /** The action of a rule: the text is delivered, and the flag kept up. */
    method Deliver(rule: nat, ghost at: nat) returns (t: Token)
      requires Held(textPtr, at) && textPtr <= cBufP <= nChars
      modifies `atBol, `history
      ensures Valid() && at + (cBufP - textPtr) <= |file|
      ensures t == Token(rule, file[at..at + (cBufP - textPtr)])
      ensures Abs() == After(Lexing(old(history), old(atBol), file, at, files), t, cBufP - textPtr)
      ensures if textPtr < cBufP then atBol <==> file[at + (cBufP - textPtr) - 1] == 10 else atBol == old(atBol)
    {
      HeldFromCursor(textPtr, at);
      hide Held;
      var text := buf[textPtr..cBufP];
      if |text| > 0 {
        atBol := text[|text| - 1] == NEWLINE;
      }
      t := Token(rule, text);
      history := history + [t];
    }

    lemma HeldFromCursor(bp: nat, at: nat)
      requires Held(bp, at) && bp <= cBufP <= nChars
      ensures nChars - cBufP <= pos && At() == at + (cBufP - bp) <= |file| && Held(cBufP, At())
      ensures cBufP <= buf.Length && buf[bp..cBufP] == file[at..at + (cBufP - bp)]
    {
      assert At() == at + (cBufP - bp);
    }

    lemma ValidMeans()
      requires Valid()
      ensures cBufP <= nChars && nChars - cBufP <= pos <= |file| && Held(cBufP, At())
    {
    }

    lemma EofIsValid(at: nat)
      requires Filled(0, at) && at == |file| && cBufP == 0 && hold == 0
      ensures Valid() && At() == at
    {
    }

    /** One turn of yylex's loop; None stands for the end of the current file. */
    method Attempt() returns (o: Option<Outcome>)
      requires L.WellFormed() && Valid()
      modifies `nChars, `bufChars, `cBufP, `textPtr, `hold, `status, `atBol, `pos, `history, `statePtr, buf, stateBuf
      ensures old(Abs()).at <= |file|
      ensures o == None ==> old(Abs()).at == |file| && Valid() && Abs() == Lexing(old(history), true, file, |file|, files)
      ensures o == Some(Fatal) ==> LooksFar(L, L.start(old(history), old(atBol)), file, old(Abs()).at, Min(bufSize, lmax))
      ensures o.Some? && o.value.Delivered? ==> |o.value.token.text| < Min(bufSize, lmax)
      ensures o.Some? ==> o.value != EndOfInput
      ensures o.Some? && o.value != Fatal ==> o.value == Step(L, old(Abs())).0
      ensures o.Some? && o.value.Delivered? ==> Valid() && Abs() == Step(L, old(Abs())).1
    {
      hide Step, LongestMatch, Held, Filled, Valid, LooksFar, Lexer.WellFormed;
      ValidMeans();
      ghost var at := At();
      StepCases(L, Abs());
      RestoreHold(cBufP, at);
      var r := ScanToken(at);
      match r
      case Failed =>
        return Some(Fatal);
      case NoMatch =>
        return Some(NoRule);
      case AtEof =>
        EofIsValid(at);
        return None;
      case Matched(rule) =>
        var t := Deliver(rule, at);
        return Some(Delivered(t));
    }

    /** yylex, up to the next action of a rule: its outcome is the one of Step,
        which knows nothing of buffers and reads, unless the scanner gives up.
        It only gives up where matching has to look as far ahead as the buffer
        or the longest text is long, but for one byte; and it does give up on a
        text that is longer than they are. */
    method Yylex() returns (o: Outcome)
      requires L.WellFormed() && Valid()
      modifies this, buf, stateBuf
      ensures old(Abs()).at <= |old(Abs()).file|
      ensures o == Fatal ==> FarStep(L, old(Abs()), Min(bufSize, lmax))
      ensures o.Delivered? ==> |o.token.text| < Min(bufSize, lmax)
      ensures o != Fatal ==> o == Step(L, old(Abs())).0
      ensures o.Delivered? || o == EndOfInput ==> Valid() && Abs() == Step(L, old(Abs())).1
      ensures o.Delivered? && AtLineBegin(old(Abs())) ==> AtLineBegin(Abs())
    {
      hide Step, LongestMatch, Held, Filled, Valid, LooksFar, Lexer.WellFormed, AtLineBegin;
      ValidMeans();
      ghost var start := Abs();
      if AtLineBegin(start) {
        StepIs(L, start);
      }
      while true
        invariant Valid() && cBufP <= nChars && nChars - cBufP <= pos <= |file|
        invariant start.at <= |start.file| && Step(L, Abs()) == Step(L, start)
        invariant FarStep(L, Abs(), Min(bufSize, lmax)) ==> FarStep(L, start, Min(bufSize, lmax))
        decreases |files|
      {
        StepCases(L, Abs());
        var a := Attempt();
        if a.Some? {
          return a.value;
        }
        if files == [] {
          return EndOfInput;
        }
        NewFile();
        ValidMeans();
      }
    }
  }

  // --- whole runs --------------------------------------------------------------------

  /** The first n calls of yylex, or those up to the end of the run: exactly the
      outcomes of Run; or, if the scanner gives up, a prefix of them, and then
      one of these tokens makes it look too far ahead. */
  method ScanAll(sc: Scanner, n: nat) returns (out: seq<Outcome>)
    requires sc.L.WellFormed() && sc.Valid()
    modifies sc, sc.buf, sc.stateBuf
    ensures old(sc.Abs()).at <= |old(sc.file)|
    ensures Fatal !in out ==> out == Run(sc.L, old(sc.Abs()), n)
    ensures Fatal in out ==> FarRun(sc.L, old(sc.Abs()), n, Min(sc.bufSize, sc.lmax))
    ensures Fatal in out ==> out != [] && out[|out| - 1] == Fatal && out[..|out| - 1] <= Run(sc.L, old(sc.Abs()), n)
  {
    hide Scanner.Valid, Lexer.WellFormed, Step, FarStep, Run, FarRun;
    sc.ValidMeans();
    ghost var start := sc.Abs();
    ghost var all := Run(sc.L, start, n);
    ghost var limit := Min(sc.bufSize, sc.lmax);
    out := [];
    while |out| < n
      invariant |out| <= n && Fatal !in out && start.at <= |start.file|
      invariant sc.Valid() && sc.nChars - sc.cBufP <= sc.pos && sc.Abs().at <= |sc.Abs().file|
      invariant all == out + Run(sc.L, sc.Abs(), n - |out|)
      invariant FarRun(sc.L, sc.Abs(), n - |out|, limit) ==> FarRun(sc.L, start, n, limit)
    {
      ghost var before := sc.Abs();
      var o := sc.Yylex();
      RunNext(sc.L, before, n - |out|, limit);
      out := out + [o];
      if !o.Delivered? {
        return;
      }
      sc.ValidMeans();
    }
    RunNext(sc.L, sc.Abs(), 0, limit);
  }

  /** Chunks do not matter: two scanners over the same input, with buffers and
      reads of their own, deliver the same rules and texts, unless some token
      makes one of them look too far ahead. */
  method TwoReadings(a: Scanner, b: Scanner, n: nat) returns (ra: seq<Outcome>, rb: seq<Outcome>)
    requires a.L == b.L && a.L.WellFormed() && a.Valid() && b.Valid() && a.Abs() == b.Abs()
    requires a != b && a.buf != b.buf && a.stateBuf != b.stateBuf
    modifies a, a.buf, a.stateBuf, b, b.buf, b.stateBuf
    ensures Fatal !in ra && Fatal !in rb ==> ra == rb
    ensures old(a.Abs()).at <= |old(a.file)|
    ensures && !FarRun(a.L, old(a.Abs()), n, Min(a.bufSize, a.lmax))
            && !FarRun(a.L, old(a.Abs()), n, Min(b.bufSize, b.lmax))
            ==> ra == rb
  {
    hide Scanner.Valid, Lexer.WellFormed, Run, FarRun;
    ra := ScanAll(a, n);
    rb := ScanAll(b, n);
  }
}
