/** The raw-data viewer: the chunk-size prompt of `raw_input` and the paging loop of
    `chunk_raw_input`. Answers come from a sequence read from a position on; running out
    of answers is the `EOFError` that `input()` raises, which ends paging and which the
    size prompt swallows (`ReadSize`). */
module Paginator {
  import opened Wrappers
  import opened Text

  /** An accepted chunk size and the position of the next unread answer. */
  datatype SizeChoice = SizeChoice(size: int, next: nat)

  /** An answer the size loop rejects: not an integer, or the integer 0. */
  predicate RejectedSize(answer: string)
  {
    ParseInt(answer).None? || ParseInt(answer) == Some(0)
  }

  /** What the size loop returns: the first answer at or after `k` that reads as a
      non-zero integer. Negative sizes are accepted. */
  function FirstSize(input: seq<string>, k: nat): (r: Option<SizeChoice>)
    decreases |input| - k
    ensures r.Some? ==> r.value.size != 0
    ensures r.Some? ==> k < r.value.next <= |input| && ParseInt(input[r.value.next - 1]) == Some(r.value.size)
    ensures r.Some? ==> forall j :: k <= j < r.value.next - 1 ==> RejectedSize(input[j])
    ensures r.None? <==> forall j :: k <= j < |input| ==> RejectedSize(input[j])
  {
    if k >= |input| then None
    else if RejectedSize(input[k]) then FirstSize(input, k + 1)
    else Some(SizeChoice(ParseInt(input[k]).value, k + 1))
  }

  /** `while size == 0: try: size = int(input()) except: size = 0`. The `except` catches
      every exception, the `EOFError` of an exhausted input included, so once the
      answers run out without a non-zero integer the source loop asks again forever;
      `None` is the point at which it starts doing so. */
  method ReadSize(input: seq<string>, k: nat) returns (r: Option<SizeChoice>)
    ensures r == FirstSize(input, k)
  {
    var size := 0;
    var pos: nat := k;
    while size == 0
      invariant size == 0 ==> FirstSize(input, pos) == FirstSize(input, k)
      invariant size != 0 ==> FirstSize(input, k) == Some(SizeChoice(size, pos))
      decreases if size == 0 then 1 else 0, |input| - pos
    {
      if pos >= |input| {
        return None;
      }
      var parsed := ParseInt(input[pos]);
      pos := pos + 1;
      size := if parsed.Some? then parsed.value else 0;
    }
    r := Some(SizeChoice(size, pos));
  }

  lemma ParseZero()
    ensures ParseInt("0") == Some(0)
  {
    assert ShowInt(0) == "0";
    ParseShowRoundTrip(0);
  }

  lemma ParseMinusThree()
    ensures ParseInt("-3") == Some(-3)
  {
    assert ShowInt(-3) == "-3";
    ParseShowRoundTrip(-3);
  }

  lemma ParseWord()
    ensures ParseInt("ten") == None
  {
    assert Strip("ten") == "ten";
  }

  /** A zero and a word are asked again; a negative number is taken. */
  lemma SizeRetries()
    ensures FirstSize(["0", "ten", "-3"], 0) == Some(SizeChoice(-3, 3))
  {
    ParseZero();
    ParseWord();
    ParseMinusThree();
  }

  /** Where a Python slice bound `j` lands in a sequence of length `n`: negative bounds
      count from the end, and both kinds are clamped to `[0, n]`. */
  function SliceBound(n: nat, j: int): (b: nat)
    ensures b <= n
    ensures 0 <= j <= n ==> b == j
  {
    if j < 0 then (if j + n < 0 then 0 else j + n) else if j > n then n else j
  }

  /** `df.iloc[i:i+size]`: the rows of one chunk. */
  function Chunk<T>(rows: seq<T>, i: int, size: int): (c: seq<T>)
    ensures |c| <= |rows|
    ensures 0 <= i < |rows| && size > 0 ==>
      0 < |c| <= size && i + |c| <= |rows| && c == rows[i..i + |c|] && (|c| < size ==> i + |c| == |rows|)
  {
    var lo, hi := SliceBound(|rows|, i), SliceBound(|rows|, i + size);
    if lo <= hi then rows[lo..hi] else []
  }

  /** With a negative size the first chunk is the whole table but its last `-size` rows. */
  lemma NegativeSizeFirstChunk<T>(rows: seq<T>, size: int)
    requires size < 0 && -size <= |rows|
    ensures Chunk(rows, 0, size) == rows[..|rows| + size]
  {
  }

  /** How paging ended: the cursor reached the row count, the user confirmed quitting,
      or the answers ran out. */
  datatype End = CursorPastEnd | UserQuit | InputExhausted

  /** The start positions of the chunks shown, in order, and how paging ended. */
  datatype Trace = Trace(starts: seq<int>, end: End)

  function Prepend(i: int, t: Trace): Trace
  {
    Trace([i] + t.starts, t.end)
  }

  /** What one round of answers after a chunk decides. */
  datatype Reply = ShowAgain | Advance | Quit | NoAnswer

  /** The reply of a round and the position of the next unread answer. */
  datatype Round = Round(reply: Reply, next: nat)

  /** The prompts after each chunk: "continue?" and, unless the answer is "yes", "sure
      you want to quit?". "yes" changes nothing, so the same chunk comes again; not-"yes"
      then "no" moves the cursor on; not-"yes" then anything else quits. */
  function RoundOf(input: seq<string>, k: nat): (r: Round)
    ensures r.reply != NoAnswer ==> k < r.next <= |input|
  {
    if k >= |input| then Round(NoAnswer, k)
    else if Lower(input[k]) == "yes" then Round(ShowAgain, k + 1)
    else if k + 1 >= |input| then Round(NoAnswer, k + 1)
    else if Lower(input[k + 1]) != "no" then Round(Quit, k + 2)
    else Round(Advance, k + 2)
  }

  /** The two `input()` calls of one round. */
  method Ask(input: seq<string>, k: nat) returns (r: Round)
    ensures r == RoundOf(input, k)
  {
    if k >= |input| {
      return Round(NoAnswer, k);
    }
    var check := input[k];
    if Lower(check) == "yes" {
      return Round(ShowAgain, k + 1);
    }
    if k + 1 >= |input| {
      return Round(NoAnswer, k + 1);
    }
    var doubleCheck := input[k + 1];
    if Lower(doubleCheck) != "no" {
      r := Round(Quit, k + 2);
    } else {
      r := Round(Advance, k + 2);
    }
  }

  /** `chunk_raw_input` from cursor `i` with the answers from position `k` on: while the
      cursor is inside the table, show the chunk at `i` and let the round decide. */
  function Pages(n: nat, size: int, input: seq<string>, k: nat, i: int): (t: Trace)
    decreases |input| - k
    ensures forall j :: 0 <= j < |t.starts| ==> t.starts[j] < n
    ensures t.starts == [] <==> i >= n
    ensures t.starts != [] ==> t.starts[0] == i
  {
    if i >= n then Trace([], CursorPastEnd)
    else
      var round := RoundOf(input, k);
      match round.reply
      case NoAnswer => Trace([i], InputExhausted)
      case Quit => Trace([i], UserQuit)
      case ShowAgain => Prepend(i, Pages(n, size, input, round.next, i))
      case Advance => Prepend(i, Pages(n, size, input, round.next, i + size))
  }

  /** The chunks already shown followed by the rest of the paging. */
  function After(shown: seq<int>, t: Trace): Trace
  {
    Trace(shown + t.starts, t.end)
  }

  /** One round of paging from a cursor inside the table, in terms of its reply. */
  lemma PagesRound(n: nat, size: int, input: seq<string>, k: nat, i: int, shown: seq<int>)
    requires i < n
    ensures var round := RoundOf(input, k);
      After(shown, Pages(n, size, input, k, i)) ==
        match round.reply
        case NoAnswer => Trace(shown + [i], InputExhausted)
        case Quit => Trace(shown + [i], UserQuit)
        case ShowAgain => After(shown + [i], Pages(n, size, input, round.next, i))
        case Advance => After(shown + [i], Pages(n, size, input, round.next, i + size))
  {
    var round := RoundOf(input, k);
    if round.reply == ShowAgain || round.reply == Advance {
      var next := if round.reply == ShowAgain then i else i + size;
      assert Pages(n, size, input, k, i) == Prepend(i, Pages(n, size, input, round.next, next));
      assert shown + ([i] + Pages(n, size, input, round.next, next).starts)
          == (shown + [i]) + Pages(n, size, input, round.next, next).starts;
    }
  }

  /** The loop of `chunk_raw_input` over a table of `n` rows, cursor from 0. */
  method Paginate(n: nat, size: int, input: seq<string>, k: nat) returns (t: Trace)
    ensures t == Pages(n, size, input, k, 0)
  {
    var answer := true;
    var i := 0;
    var pos: nat := k;
    var starts: seq<int> := [];
    assert After([], Pages(n, size, input, k, 0)) == Pages(n, size, input, k, 0);
    while answer && i < n
      invariant answer ==> Pages(n, size, input, k, 0) == After(starts, Pages(n, size, input, pos, i))
      invariant !answer ==> Pages(n, size, input, k, 0) == Trace(starts, UserQuit)
      decreases |input| - pos
    {
      PagesRound(n, size, input, pos, i, starts);
      var round := Ask(input, pos);
      starts := starts + [i];
      pos := round.next;
      match round.reply
      case NoAnswer =>
        return Trace(starts, InputExhausted);
      case Quit =>
        answer := false;
      case ShowAgain =>
      case Advance =>
        i := i + size;
    }
    assert answer ==> After(starts, Pages(n, size, input, pos, i)) == Trace(starts + [], CursorPastEnd);
    assert starts + [] == starts;
    t := Trace(starts, if answer then CursorPastEnd else UserQuit);
  }

  /** One round of `chunk_raw_input` from a cursor inside the table: "yes" shows the
      same chunk again, not-"yes" then "no" moves the cursor on by `size`, not-"yes"
      then anything else stops, and missing answers end paging. */
  lemma CursorStep(n: nat, size: int, input: seq<string>, k: nat, i: int)
    requires i < n
    ensures k >= |input| ==> Pages(n, size, input, k, i) == Trace([i], InputExhausted)
    ensures k < |input| && Lower(input[k]) == "yes" ==>
      Pages(n, size, input, k, i).starts == [i] + Pages(n, size, input, k + 1, i).starts &&
      Pages(n, size, input, k, i).end == Pages(n, size, input, k + 1, i).end
    ensures k < |input| && Lower(input[k]) != "yes" && k + 1 >= |input| ==>
      Pages(n, size, input, k, i) == Trace([i], InputExhausted)
    ensures k + 1 < |input| && Lower(input[k]) != "yes" && Lower(input[k + 1]) != "no" ==>
      Pages(n, size, input, k, i) == Trace([i], UserQuit)
    ensures k + 1 < |input| && Lower(input[k]) != "yes" && Lower(input[k + 1]) == "no" ==>
      Pages(n, size, input, k, i).starts == [i] + Pages(n, size, input, k + 2, i + size).starts &&
      Pages(n, size, input, k, i).end == Pages(n, size, input, k + 2, i + size).end
  {
  }

  /** `c` copies of `i`. */
  function Repeat(i: int, c: nat): (s: seq<int>)
    ensures |s| == c && forall j :: 0 <= j < c ==> s[j] == i
  {
    seq(c, _ => i)
  }

  /** Answering "yes" every time never moves the cursor: every chunk shown is the first
      one, until the answers run out. */
  lemma {:induction false} AllYesRepeats(n: nat, size: int, input: seq<string>, k: nat, i: int)
    requires i < n && k <= |input|
    requires forall j :: k <= j < |input| ==> Lower(input[j]) == "yes"
    ensures Pages(n, size, input, k, i) == Trace(Repeat(i, |input| - k + 1), InputExhausted)
    decreases |input| - k
  {
    if k < |input| {
      AllYesRepeats(n, size, input, k + 1, i);
      assert [i] + Repeat(i, |input| - k) == Repeat(i, |input| - k + 1);
    }
  }

  /** The number of chunks from cursor `i` when every step moves it on by `size`. */
  function ChunkCount(n: nat, i: int, size: int): nat
    requires size > 0
    decreases n - i
  {
    if i >= n then 0 else 1 + ChunkCount(n, i + size, size)
  }

  /** `ChunkCount` is the ceiling of `(n - i) / size`. */
  lemma {:induction false} ChunkCountIsCeiling(n: nat, i: int, size: int)
    requires size > 0 && i < n
    ensures (ChunkCount(n, i, size) - 1) * size < n - i <= ChunkCount(n, i, size) * size
    decreases n - i
  {
    var c := ChunkCount(n, i + size, size);
    if i + size < n {
      ChunkCountIsCeiling(n, i + size, size);
      assert (c + 1) * size == c * size + size;
      assert (c - 1) * size == c * size - size;
    }
  }

  /** The cursor positions `i, i + size, i + 2 * size, ...`, `c` of them. */
  function Steps(i: int, size: int, c: nat): (s: seq<int>)
    ensures |s| == c
    decreases c
  {
    if c == 0 then [] else [i] + Steps(i + size, size, c - 1)
  }

  lemma {:induction false} StepsAt(i: int, size: int, c: nat, j: nat)
    requires j < c
    ensures Steps(i, size, c)[j] == i + j * size
    decreases c
  {
    if j > 0 {
      StepsAt(i + size, size, c - 1, j - 1);
      assert (j - 1) * size + size == j * size;
    }
  }

  /** `c` rounds of a not-"yes" answer followed by "no". */
  predicate Resumes(input: seq<string>, k: nat, c: nat)
    decreases c
  {
    c == 0 ||
    (k + 1 < |input| && Lower(input[k]) != "yes" && Lower(input[k + 1]) == "no" && Resumes(input, k + 2, c - 1))
  }

  /** Declining to quit after every chunk walks the whole table: the chunks start at
      `i, i + size, ...`, there are ceil((n - i) / size) of them, and paging ends at
      the last row. */
  lemma {:induction false} ResumingWalksTable(n: nat, size: int, input: seq<string>, k: nat, i: int)
    requires size > 0
    requires Resumes(input, k, ChunkCount(n, i, size))
    ensures Pages(n, size, input, k, i) == Trace(Steps(i, size, ChunkCount(n, i, size)), CursorPastEnd)
    decreases n - i
  {
    if i < n {
      ResumingWalksTable(n, size, input, k + 2, i + size);
    }
  }

  /** Twelve rows in chunks of five, never quitting: chunks of 5, 5 and 2 rows. */
  lemma TwelveRowsByFive<T>(rows: seq<T>)
    requires |rows| == 12
    ensures Pages(12, 5, ["no", "no", "No", "no", "n", "NO"], 0, 0) == Trace([0, 5, 10], CursorPastEnd)
    ensures |Chunk(rows, 0, 5)| == 5 && |Chunk(rows, 5, 5)| == 5 && |Chunk(rows, 10, 5)| == 2
  {
    var input := ["no", "no", "No", "no", "n", "NO"];
    assert Lower("no") == "no" && Lower("No") == "no" && Lower("NO") == "no" && Lower("n") == "n";
    assert ChunkCount(12, 15, 5) == 0;
    assert ChunkCount(12, 0, 5) == 3;
    ResumingWalksTable(12, 5, input, 0, 0);
  }

  /** The paging the prompts describe: "yes" at "continue?" moves the cursor on too. */
  function IntendedPages(n: nat, size: int, input: seq<string>, k: nat, i: int): (t: Trace)
    decreases |input| - k
    ensures forall j :: 0 <= j < |t.starts| ==> t.starts[j] < n
    ensures t.starts == [] <==> i >= n
  {
    if i >= n then Trace([], CursorPastEnd)
    else if k >= |input| then Trace([i], InputExhausted)
    else if Lower(input[k]) == "yes" then Prepend(i, IntendedPages(n, size, input, k + 1, i + size))
    else if k + 1 >= |input| then Trace([i], InputExhausted)
    else if Lower(input[k + 1]) != "no" then Trace([i], UserQuit)
    else Prepend(i, IntendedPages(n, size, input, k + 2, i + size))
  }

  /** With "yes" moving on, always answering "yes" shows ceil((n - i) / size) chunks and
      stops at the last row. */
  lemma {:induction false} IntendedAllYesWalksTable(n: nat, size: int, input: seq<string>, k: nat, i: int)
    requires size > 0 && k + ChunkCount(n, i, size) <= |input|
    requires forall j :: k <= j < |input| ==> Lower(input[j]) == "yes"
    ensures IntendedPages(n, size, input, k, i) == Trace(Steps(i, size, ChunkCount(n, i, size)), CursorPastEnd)
    decreases n - i
  {
    if i < n {
      IntendedAllYesWalksTable(n, size, input, k + 1, i + size);
    }
  }

  /** Twelve rows in chunks of five, answering "yes" three times: the code shows the
      first chunk four times and never reaches the end; the intended paging shows the
      chunks at 0, 5 and 10 and stops. */
  lemma AllYesDiscrepancy()
    ensures Pages(12, 5, ["yes", "yes", "YES"], 0, 0) == Trace([0, 0, 0, 0], InputExhausted)
    ensures IntendedPages(12, 5, ["yes", "yes", "YES"], 0, 0) == Trace([0, 5, 10], CursorPastEnd)
  {
    var input := ["yes", "yes", "YES"];
    assert Lower("yes") == "yes" && Lower("YES") == "yes";
    AllYesRepeats(12, 5, input, 0, 0);
    assert Repeat(0, 4) == [0, 0, 0, 0];
    assert ChunkCount(12, 15, 5) == 0;
    assert ChunkCount(12, 0, 5) == 3;
    IntendedAllYesWalksTable(12, 5, input, 0, 0);
  }
}
