/** Splitting a dump into statements while it is read chunk by chunk.

    The reader cannot look ahead: on a quote inside a string it waits for the
    next byte before it knows whether the string has ended.  The scanners that
    later work on whole statements do look ahead.  Both find the same ends. */
module SqlStatements {
  import opened Options
  import opened SqlText

  // ---------------------------------------------------------------- the two scanners

  /** The reader's state; `Maybe(q)` follows a quote that may close the string. */
  datatype Reading = Plain(m: Mode) | Maybe(q: char)

  function ReadFree(c: char): (Reading, bool) {
    if IsQuote(c) then (Plain(Inside(c)), false) else (Plain(Free), c == ';')
  }

  /** One byte of the reader: the next state, and whether a statement ends. */
  function Read(r: Reading, c: char): (Reading, bool) {
    match r
    case Plain(Free) => ReadFree(c)
    case Plain(Escaped(q)) => (Plain(Inside(q)), false)
    case Plain(Inside(q)) =>
      if Backslashed(c, q) then (Plain(Escaped(q)), false)
      else if c == q then (Maybe(q), false)
      else (r, false)
    case Maybe(q) =>
      if c == q then (Plain(Inside(q)), false) else ReadFree(c)
  }

  /** Where the reader, in state r at i, ends the statement; |s| if it does not. */
  function DelayedEnd(s: string, i: nat, r: Reading): (e: nat)
    requires i <= |s|
    ensures i <= e <= |s|
    decreases |s| - i
  {
    if i == |s| then i
    else
      var (r', ends) := Read(r, s[i]);
      if ends then i else DelayedEnd(s, i + 1, r')
  }

  /** The first `;` from i on that the look-ahead scanner finds unquoted. */
  function LookEnd(s: string, i: nat, m: Mode): (e: nat)
    requires i <= |s|
    ensures i <= e <= |s|
    decreases |s| - i
  {
    if i == |s| then i
    else if !m.Free? then
      var (j, m') := SkipQuoted(s, i, m);
      LookEnd(s, j, m')
    else if IsQuote(s[i]) then LookEnd(s, i + 1, Inside(s[i]))
    else if s[i] == ';' then i
    else LookEnd(s, i + 1, Free)
  }

  /** The delayed scanner refines the look-ahead one from every state. */
  lemma {:induction false} DelayedIsLookAhead(s: string, i: nat, r: Reading)
    requires i <= |s|
    ensures DelayedEnd(s, i, r) ==
      match r
      case Plain(m) => LookEnd(s, i, m)
      case Maybe(q) => if i < |s| && s[i] == q then LookEnd(s, i + 1, Inside(q)) else LookEnd(s, i, Free)
    decreases |s| - i
  {
    if i < |s| {
      var (r', ends) := Read(r, s[i]);
      if !ends {
        DelayedIsLookAhead(s, i + 1, r');
      }
    }
  }

  // ---------------------------------------------------------------- the reference: cutting at look-ahead ends

  /** The dump cut after each unquoted `;`, with whatever is left at the end. */
  function Pieces(s: string): seq<string>
    decreases |s|
  {
    if s == [] then []
    else
      var e := LookEnd(s, 0, Free);
      if e < |s| then [s[..e + 1]] + Pieces(s[e + 1..]) else [s]
  }

  function Flatten(parts: seq<string>): string {
    if parts == [] then [] else parts[0] + Flatten(parts[1..])
  }

  predicate IsBlank(c: char) {
    c in {' ', '\t', '\n', '\r', 11 as char, 12 as char}
  }

  predicate Blank(s: string) {
    forall i :: 0 <= i < |s| ==> IsBlank(s[i])
  }

  /** A blank tail is not a statement. */
  function DropBlankTail(parts: seq<string>): seq<string> {
    if parts != [] && Blank(parts[|parts| - 1]) then parts[..|parts| - 1] else parts
  }

  predicate AllFit(parts: seq<string>, limit: nat) {
    forall i :: 0 <= i < |parts| ==> |parts[i]| <= limit
  }

  /** The pieces before the first one that is too long. */
  function Fitting(parts: seq<string>, limit: nat): seq<string> {
    if parts == [] || |parts[0]| > limit then [] else [parts[0]] + Fitting(parts[1..], limit)
  }

  datatype Outcome = Statements(all: seq<string>) | LimitError(yielded: seq<string>)

  function Expected(s: string, limit: nat): Outcome {
    var parts := Pieces(s);
    if AllFit(parts, limit) then Statements(DropBlankTail(parts)) else LimitError(Fitting(parts, limit))
  }

  // ---------------------------------------------------------------- what the pieces are

  lemma {:induction false} FittingIs(parts: seq<string>, limit: nat, k: nat)
    requires k < |parts| && |parts[k]| > limit && forall j :: 0 <= j < k ==> |parts[j]| <= limit
    ensures Fitting(parts, limit) == parts[..k]
  {
    if k > 0 {
      FittingIs(parts[1..], limit, k - 1);
      assert parts[..k] == [parts[0]] + parts[1..][..k - 1];
    }
  }

  /** The first piece above the limit ends the reading with an error, the pieces before it
      being yielded; without one all are yielded, but for a last one that is blank. */
  lemma OutcomeIs(s: string, limit: nat, k: nat)
    requires k <= |Pieces(s)| && forall j :: 0 <= j < k ==> |Pieces(s)[j]| <= limit
    ensures k < |Pieces(s)| && |Pieces(s)[k]| > limit ==> Expected(s, limit) == LimitError(Pieces(s)[..k])
    ensures k == |Pieces(s)| > 0 ==>
      var last := Pieces(s)[k - 1];
      var blank := forall i :: 0 <= i < |last| ==> 9 <= last[i] as int <= 13 || last[i] == ' ';
      Expected(s, limit) == Statements(if blank then Pieces(s)[..k - 1] else Pieces(s))
    ensures s == "" ==> Expected(s, limit) == Statements([])
  {
    hide LookEnd;
    var parts := Pieces(s);
    if k < |parts| && |parts[k]| > limit {
      FittingIs(parts, limit, k);
    }
    if k == |parts| > 0 {
      BlankIff(parts[k - 1]);
    }
  }

  lemma BlankIff(t: string)
    ensures Blank(t) <==> forall i :: 0 <= i < |t| ==> 9 <= t[i] as int <= 13 || t[i] == ' '
  {
    forall i | 0 <= i < |t|
      ensures IsBlank(t[i]) <==> 9 <= t[i] as int <= 13 || t[i] == ' '
    {
      if IsBlank(t[i]) {
        assert t[i] as int in {9, 10, 11, 12, 13, 32};
      }
    }
  }

  /** Nothing is lost, duplicated or reordered. */
  lemma {:induction false} PiecesFlatten(s: string)
    ensures Flatten(Pieces(s)) == s
    decreases |s|
  {
    hide LookEnd;
    if s != [] {
      var e := LookEnd(s, 0, Free);
      if e < |s| {
        PiecesFlatten(s[e + 1..]);
        assert Pieces(s)[1..] == Pieces(s[e + 1..]);
      } else {
        assert Pieces(s)[1..] == [];
      }
    }
  }

  /** The scanner never looks past the `;` it stops at. */
  lemma {:induction false} EndInPrefix(s: string, i: nat, m: Mode, n: nat)
    requires i <= n <= |s|
    requires LookEnd(s, i, m) < n
    ensures LookEnd(s[..n], i, m) == LookEnd(s, i, m)
    decreases |s| - i
  {
    if i < |s| {
      if !m.Free? {
        var (j, m') := SkipQuoted(s, i, m);
        EndInPrefix(s, j, m', n);
      } else if IsQuote(s[i]) {
        EndInPrefix(s, i + 1, Inside(s[i]), n);
      } else if s[i] != ';' {
        EndInPrefix(s, i + 1, Free, n);
      }
    }
  }

  lemma {:induction false} EndIsSemicolon(s: string, i: nat, m: Mode)
    requires i <= |s| && LookEnd(s, i, m) < |s|
    ensures s[LookEnd(s, i, m)] == ';'
    decreases |s| - i
  {
    if !m.Free? {
      var (j, m') := SkipQuoted(s, i, m);
      EndIsSemicolon(s, j, m');
    } else if IsQuote(s[i]) {
      EndIsSemicolon(s, i + 1, Inside(s[i]));
    } else if s[i] != ';' {
      EndIsSemicolon(s, i + 1, Free);
    }
  }

  /** A whole statement: its first unquoted `;` is its last character. */
  predicate Terminated(p: string) {
    p != [] && p[|p| - 1] == ';' && LookEnd(p, 0, Free) == |p| - 1
  }

  /** Every piece is a whole statement, except that the last may have no end. */
  lemma {:induction false} PiecesTerminated(s: string, k: nat)
    requires k < |Pieces(s)|
    ensures Terminated(Pieces(s)[k]) ||
            (k == |Pieces(s)| - 1 && Pieces(s)[k] != [] && LookEnd(Pieces(s)[k], 0, Free) == |Pieces(s)[k]|)
    decreases |s|
  {
    hide LookEnd;
    var e := LookEnd(s, 0, Free);
    if e < |s| {
      CutAt(s, s[..e + 1], s[e + 1..]);
      if k == 0 {
        EndInPrefix(s, 0, Free, e + 1);
        EndIsSemicolon(s, 0, Free);
      } else {
        PiecesTerminated(s[e + 1..], k - 1);
      }
    }
  }

  /** The statements, with the blank tail put back, are the input. */
  lemma StatementsCover(s: string, limit: nat)
    requires Expected(s, limit).Statements?
    ensures exists tail :: Blank(tail) && Flatten(Expected(s, limit).all + [tail]) == s
  {
    var parts := Pieces(s);
    PiecesFlatten(s);
    if parts != [] && Blank(parts[|parts| - 1]) {
      var tail := parts[|parts| - 1];
      assert Expected(s, limit).all + [tail] == parts;
      assert Blank(tail) && Flatten(Expected(s, limit).all + [tail]) == s;
    } else {
      FlattenOneMore(parts, []);
      assert Blank([]) && Flatten(Expected(s, limit).all + [[]]) == s;
    }
  }

  lemma {:induction false} FlattenOneMore(parts: seq<string>, p: string)
    ensures Flatten(parts + [p]) == Flatten(parts) + p
  {
    if parts == [] {
      assert [] + [p] == [p] && [p][1..] == [];
    } else {
      FlattenOneMore(parts[1..], p);
      assert (parts + [p])[1..] == parts[1..] + [p];
    }
  }

  lemma {:induction false} FittingPrefix(parts: seq<string>, limit: nat, k: nat)
    requires k < |parts| && AllFit(parts[..k], limit) && |parts[k]| > limit
    ensures Fitting(parts, limit) == parts[..k]
  {
    if k > 0 {
      assert parts[..k][0] == parts[0];
      assert parts[1..][..k - 1] == parts[..k][1..];
      FittingPrefix(parts[1..], limit, k - 1);
    }
  }

  // ---------------------------------------------------------------- the reader

  /** What the source delivers before its first empty read. */
  function Delivered(chunks: seq<string>): string {
    if chunks == [] || chunks[0] == [] then [] else chunks[0] + Delivered(chunks[1..])
  }

  /** The reader so far: whole statements in `done`, an unfinished one in
      `statement`, and `rest` still to come of the dump `s`. */
  ghost predicate Progress(s: string, limit: nat, done: seq<string>, statement: string, r: Reading, rest: string) {
    && (forall i :: 0 <= i < |done| ==> Terminated(done[i]))
    && Pieces(s) == done + Pieces(statement + rest)
    && DelayedEnd(statement + rest, |statement|, r) == LookEnd(statement + rest, 0, Free)
    && AllFit(done, limit)
    && |statement| <= limit
  }

  /** A byte that does not end the statement only makes it longer. */
  lemma ByteGoesOn(s: string, limit: nat, done: seq<string>, statement: string, r: Reading, c: char, rest: string)
    requires Progress(s, limit, done, statement, r, [c] + rest)
    requires |statement| < limit && !Read(r, c).1
    ensures Progress(s, limit, done, statement + [c], Read(r, c).0, rest)
  {
    assert statement + ([c] + rest) == (statement + [c]) + rest;
  }

  /** A byte that ends the statement completes exactly the next piece. */
  lemma ByteEnds(s: string, limit: nat, done: seq<string>, statement: string, r: Reading, c: char, rest: string)
    requires Progress(s, limit, done, statement, r, [c] + rest)
    requires |statement| < limit && Read(r, c).1
    ensures Progress(s, limit, done + [statement + [c]], [], Plain(Free), rest)
  {
    FirstPiece(statement, c, rest);
    assert [] + rest == rest;
    DelayedIsLookAhead(rest, 0, Plain(Free));
    assert done + ([statement + [c]] + Pieces(rest)) == (done + [statement + [c]]) + Pieces(rest);
  }

  lemma CutAt(t: string, a: string, b: string)
    requires t == a + b && a != [] && LookEnd(t, 0, Free) == |a| - 1
    ensures Pieces(t) == [a] + Pieces(b)
  {
    hide LookEnd;
    assert t[..|a|] == a && t[|a|..] == b;
  }

  lemma FirstPiece(statement: string, c: char, rest: string)
    requires LookEnd(statement + ([c] + rest), 0, Free) == |statement|
    ensures Pieces(statement + ([c] + rest)) == [statement + [c]] + Pieces(rest)
    ensures Terminated(statement + [c])
  {
    hide LookEnd, Pieces;
    var t := statement + ([c] + rest);
    assert t == (statement + [c]) + rest;
    assert t[..|statement| + 1] == statement + [c];
    CutAt(t, statement + [c], rest);
    EndInPrefix(t, 0, Free, |statement| + 1);
    EndIsSemicolon(t, 0, Free);
  }

  /** A byte too many: the piece being read does not fit. */
  lemma ByteTooMany(s: string, limit: nat, done: seq<string>, statement: string, r: Reading, c: char, rest: string)
    requires Progress(s, limit, done, statement, r, [c] + rest)
    requires |statement| == limit
    ensures Expected(s, limit) == LimitError(done)
  {
    var t := statement + ([c] + rest);
    var parts := Pieces(s);
    assert |Pieces(t)[0]| > limit;
    assert parts[|done|] == Pieces(t)[0] && parts[..|done|] == done;
    FittingPrefix(parts, limit, |done|);
  }

  lemma AtEnd(s: string, limit: nat, done: seq<string>, statement: string, r: Reading)
    requires Progress(s, limit, done, statement, r, [])
    ensures Expected(s, limit) == Statements(if Blank(statement) then done else done + [statement])
  {
    assert statement + [] == statement;
    if statement == [] {
      assert Pieces(s) == done;
      if done != [] {
        assert Terminated(done[|done| - 1]);
        assert !Blank(done[|done| - 1]);
      }
    } else {
      assert Pieces(statement) == [statement];
      assert AllFit(Pieces(s), limit);
    }
  }

  /** The three variables of the reader, as one state. */
  ghost function StateOf(quote: Option<char>, escaped: bool, maybeEnd: bool): Reading {
    match quote
    case None => Plain(Free)
    case Some(q) => if escaped then Plain(Escaped(q)) else if maybeEnd then Maybe(q) else Plain(Inside(q))
  }

  /** The body of the byte loop, without the length check. */
  method ReadByte(quote: Option<char>, escaped: bool, maybeEnd: bool, c: char)
    returns (quote': Option<char>, escaped': bool, maybeEnd': bool, ends: bool)
    ensures (StateOf(quote', escaped', maybeEnd'), ends) == Read(StateOf(quote, escaped, maybeEnd), c)
  {
    quote', escaped', maybeEnd', ends := quote, escaped, maybeEnd, false;
    if quote.Some? {
      if escaped {
        return quote, false, false, false;
      }
      if maybeEnd {
        if c == quote.value {
          return quote, false, false, false;
        }
        quote', maybeEnd' := None, false;
      } else if c == '\\' && (quote.value == '\'' || quote.value == '"') {
        return quote, true, false, false;
      } else if c == quote.value {
        return quote, false, true, false;
      } else {
        return quote, false, false, false;
      }
    }
    if c == '\'' || c == '"' || c == '`' {
      quote', escaped', maybeEnd' := Some(c), false, false;
    } else if c == ';' {
      ends := true;
    }
  }

  /** One chunk of the dump. */
  method ReadChunk(chunk: string, limit: nat, done: seq<string>, statement: string,
                   quote: Option<char>, escaped: bool, maybeEnd: bool, ghost s: string, ghost rest: string)
    returns (done': seq<string>, statement': string, quote': Option<char>, escaped': bool, maybeEnd': bool, ok: bool)
    requires Progress(s, limit, done, statement, StateOf(quote, escaped, maybeEnd), chunk + rest)
    ensures ok ==> Progress(s, limit, done', statement', StateOf(quote', escaped', maybeEnd'), rest)
    ensures !ok ==> Expected(s, limit) == LimitError(done')
  {
    hide Progress, Expected;
    done', statement', quote', escaped', maybeEnd', ok := done, statement, quote, escaped, maybeEnd, true;
    assert chunk[0..] == chunk;
    for i := 0 to |chunk|
      invariant Progress(s, limit, done', statement', StateOf(quote', escaped', maybeEnd'), chunk[i..] + rest)
    {
      var c := chunk[i];
      ghost var next := chunk[i + 1..] + rest;
      assert chunk[i..] + rest == [c] + next;
      ghost var r := StateOf(quote', escaped', maybeEnd');
      Bounded(s, limit, done', statement', r, [c] + next);
      if |statement'| + 1 > limit {
        ByteTooMany(s, limit, done', statement', r, c, next);
        ok := false;
        return;
      }
      var ends;
      quote', escaped', maybeEnd', ends := ReadByte(quote', escaped', maybeEnd', c);
      if ends {
        ByteEnds(s, limit, done', statement', r, c, next);
        done', statement' := done' + [statement' + [c]], [];
      } else {
        ByteGoesOn(s, limit, done', statement', r, c, next);
        statement' := statement' + [c];
      }
    }
    assert chunk[|chunk|..] + rest == rest;
  }

  lemma Bounded(s: string, limit: nat, done: seq<string>, statement: string, r: Reading, rest: string)
    requires Progress(s, limit, done, statement, r, rest)
    ensures |statement| <= limit
  {
  }

  lemma AtStart(s: string, limit: nat)
    ensures Progress(s, limit, [], [], Plain(Free), s)
  {
    assert [] + s == s;
    DelayedIsLookAhead(s, 0, Plain(Free));
  }

  /** The reader yields what the look-ahead cut of the delivered bytes says; how
      the bytes were chunked does not matter. */
  method IterSqlStatements(chunks: seq<string>, limit: nat) returns (out: Outcome)
    ensures out == Expected(Delivered(chunks), limit)
  {
    hide Progress, Expected;
    var done: seq<string>, statement: string := [], [];
    var quote: Option<char>, escaped, maybeEnd := None, false, false;
    ghost var s := Delivered(chunks);
    AtStart(s, limit);
    var i := 0;
    while i < |chunks| && chunks[i] != []
      invariant i <= |chunks|
      invariant Progress(s, limit, done, statement, StateOf(quote, escaped, maybeEnd), Delivered(chunks[i..]))
    {
      assert chunks[i..][0] == chunks[i] && chunks[i..][1..] == chunks[i + 1..];
      var ok;
      done, statement, quote, escaped, maybeEnd, ok := ReadChunk(chunks[i], limit, done, statement,
        quote, escaped, maybeEnd, s, Delivered(chunks[i + 1..]));
      if !ok {
        return LimitError(done);
      }
      i := i + 1;
    }
    assert Delivered(chunks[i..]) == [];
    AtEnd(s, limit, done, statement, StateOf(quote, escaped, maybeEnd));
    if !Blank(statement) {
      done := done + [statement];
    }
    out := Statements(done);
  }

  lemma {:induction false} ChunksJoin(chunks: seq<string>)
    requires [] !in chunks
    ensures Delivered(chunks) == Flatten(chunks)
  {
    if chunks != [] {
      ChunksJoin(chunks[1..]);
    }
  }

  /** Any two ways of cutting the same bytes into reads give the same statements. */
  lemma ChunkingIrrelevant(a: seq<string>, b: seq<string>, limit: nat)
    requires [] !in a && [] !in b && Flatten(a) == Flatten(b)
    ensures Expected(Delivered(a), limit) == Expected(Delivered(b), limit)
  {
    ChunksJoin(a);
    ChunksJoin(b);
  }
}
