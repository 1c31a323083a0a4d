/** The short-code generator: a 63-bit random draw is read as ten 6-bit
    chunks from the low bits upward, each chunk below 52 picks one letter of
    the alphabet, larger chunks are thrown away, and a new draw is taken
    only when the ten chunks of the current one are used up.

    The random source is an oracle: the sequence of values it will return,
    read from a position that each draw advances.

    The arithmetic below writes the bit layout of Constants as literals:
    64 is 2^LetterIdxBits (the mask LetterIdxMask plus one) and 10 is
    LetterIdxMax; Constants.AlphabetShape proves these values. */
module CodeGen {
  import opened Constants

  // ---------------------------------------------------------------------
  // The chunk stream a sequence of draws produces

  /** The first k chunks of w, lowest bits first. On a non-negative
      integer, masking with LetterIdxMask is `% 64` and shifting right by
      LetterIdxBits is `/ 64`. */
  function Chunks(w: nat, k: nat): (cs: seq<nat>)
    ensures |cs| == k
  {
    if k == 0 then [] else [w % 64] + Chunks(w / 64, k - 1)
  }

  /** The chunks a sequence of draws yields, LetterIdxMax per draw, draws in order. */
  function Stream(ws: seq<nat>): (cs: seq<nat>)
    ensures |cs| == 10 * |ws|
  {
    if ws == [] then [] else Chunks(ws[0], 10) + Stream(ws[1..])
  }

  /** The chunks that index a letter, in order; the others are discarded. */
  function Accepted(cs: seq<nat>): (r: seq<nat>)
    ensures |r| <= |cs|
    ensures forall k :: 0 <= k < |r| ==> r[k] < AlphabetSize
  {
    if cs == [] then []
    else (if cs[0] < AlphabetSize then [cs[0]] else []) + Accepted(cs[1..])
  }

  /** The letters a sequence of letter indices names. */
  function Spell(cs: seq<nat>): (s: string)
    requires forall k :: 0 <= k < |cs| ==> cs[k] < AlphabetSize
    ensures |s| == |cs|
    ensures forall k :: 0 <= k < |s| ==> s[k] == Letter(cs[k])
  {
    if cs == [] then "" else [Letter(cs[0])] + Spell(cs[1..])
  }

  /** The letters of the first n accepted chunks of cs, read in order. */
  function Take(cs: seq<nat>, n: nat): string {
    if n == 0 || cs == [] then ""
    else if cs[0] < AlphabetSize then [Letter(cs[0])] + Take(cs[1..], n - 1)
    else Take(cs[1..], n)
  }

  /** The code of n letters a chunk stream yields: letter k is the letter
      that the k-th accepted chunk indexes. */
  function Generated(cs: seq<nat>, n: nat): (s: string)
    requires n <= |Accepted(cs)|
    ensures |s| == n
    ensures forall k :: 0 <= k < n ==> s[k] == Letter(Accepted(cs)[k])
    ensures forall k :: 0 <= k < n ==> IsLetter(s[k])
  {
    TakeSpellsAccepted(cs, n);
    Take(cs, n)
  }

  /** Number of chunks read before n letters have been produced: the
      length of the shortest prefix of cs holding n accepted chunks. */
  function PrefixFor(cs: seq<nat>, n: nat): (t: nat)
    ensures t <= |cs|
  {
    if n == 0 || cs == [] then 0
    else 1 + PrefixFor(cs[1..], if cs[0] < AlphabetSize then n - 1 else n)
  }

  /** Number of draws taken to produce n letters: the first draw is taken
      before anything is read, and a further one each time LetterIdxMax
      chunks have been read and letters are still missing. */
  function DrawsUsed(cs: seq<nat>, n: nat): (d: nat)
    ensures n == 0 ==> d == 1
    ensures 0 < PrefixFor(cs, n) ==> 1 <= d
  {
    if n == 0 then 1 else (PrefixFor(cs, n) - 1) / 10 + 1
  }

  // ---------------------------------------------------------------------
  // Properties of the chunk stream

  lemma {:induction false} AcceptedAppend(a: seq<nat>, b: seq<nat>)
    ensures Accepted(a + b) == Accepted(a) + Accepted(b)
  {
    if a == [] {
      assert a + b == b;
    } else {
      assert (a + b)[1..] == a[1..] + b;
      AcceptedAppend(a[1..], b);
    }
  }

  /** Take reads the first n letters off the accepted chunks. */
  lemma {:induction false} TakeSpellsAccepted(cs: seq<nat>, n: nat)
    requires n <= |Accepted(cs)|
    ensures Take(cs, n) == Spell(Accepted(cs)[..n])
  {
    if n > 0 {
      var c, a := cs[0], Accepted(cs[1..]);
      if c < AlphabetSize {
        TakeSpellsAccepted(cs[1..], n - 1);
        assert Accepted(cs)[..n] == [c] + a[..n - 1];
        assert ([c] + a[..n - 1])[1..] == a[..n - 1];
      } else {
        TakeSpellsAccepted(cs[1..], n);
      }
    }
  }

  lemma {:induction false} StreamAppend(a: seq<nat>, b: seq<nat>)
    ensures Stream(a + b) == Stream(a) + Stream(b)
  {
    if a == [] {
      assert a + b == b;
    } else {
      assert (a + b)[1..] == a[1..] + b;
      StreamAppend(a[1..], b);
    }
  }

  /** Reading k chunks of a draw leaves it shifted right by 6k bits: the
      chunks after the first k are those of the shifted draw. */
  lemma {:induction false} ChunksSplit(w: nat, k: nat, m: nat)
    ensures Chunks(w, k + m) == Chunks(w, k) + Chunks(Shifted(w, k), m)
  {
    if k > 0 {
      ChunksSplit(w / 64, k - 1, m);
      assert Chunks(w, k + m) == [w % 64] + Chunks(w / 64, (k - 1) + m);
    }
  }

  /** The j-th chunk of a draw is the low six bits of the draw shifted
      right by 6j bits. */
  lemma {:induction false} ChunkAt(w: nat, k: nat, j: nat)
    requires j < k
    ensures Chunks(w, k)[j] == Shifted(w, j) % 64
  {
    if j > 0 {
      ChunkAt(w / 64, k - 1, j - 1);
    }
  }

  /** A discarded chunk leaves no trace in the letters produced, but it
      still takes one slot of the chunks read. */
  lemma {:induction false} DiscardedChunk(a: seq<nat>, c: nat, b: seq<nat>, n: nat)
    requires c >= AlphabetSize
    requires |Accepted(a)| < n
    ensures Accepted(a + [c] + b) == Accepted(a + b)
    ensures Take(a + [c] + b, n) == Take(a + b, n)
    ensures PrefixFor(a + [c] + b, n) == PrefixFor(a + b, n) + 1
  {
    if a == [] {
      assert a + [c] + b == [c] + b;
      assert a + b == b;
      assert ([c] + b)[1..] == b;
    } else {
      assert (a + [c] + b)[1..] == a[1..] + [c] + b;
      assert (a + b)[1..] == a[1..] + b;
      DiscardedChunk(a[1..], c, b, if a[0] < AlphabetSize then n - 1 else n);
    }
  }

  /** PrefixFor is the length of the SHORTEST prefix holding n accepted
      chunks: that prefix holds exactly n of them and ends in one. */
  lemma {:induction false} PrefixForShortest(cs: seq<nat>, n: nat)
    requires 0 < n <= |Accepted(cs)|
    ensures 0 < PrefixFor(cs, n) <= |cs|
    ensures |Accepted(cs[..PrefixFor(cs, n)])| == n
    ensures cs[PrefixFor(cs, n) - 1] < AlphabetSize
  {
    var n' := if cs[0] < AlphabetSize then n - 1 else n;
    if n' == 0 {
      assert cs[..1][1..] == [];
    } else {
      PrefixForShortest(cs[1..], n');
      var t := PrefixFor(cs[1..], n');
      assert cs[..t + 1][1..] == cs[1..][..t];
    }
  }

  /** A draw yields at most LetterIdxMax letters. */
  lemma LettersPerDraw(w: nat)
    ensures |Accepted(Chunks(w, 10))| <= 10
  {
  }

  /** The chunks read to produce n > 0 letters all come from the draws
      taken, and the last draw taken contributes at least one of them. */
  lemma DrawsCoverChunks(cs: seq<nat>, n: nat)
    requires 0 < n
    requires 0 < PrefixFor(cs, n)
    ensures 10 * (DrawsUsed(cs, n) - 1) < PrefixFor(cs, n) <= 10 * DrawsUsed(cs, n)
  {
  }

  // ---------------------------------------------------------------------
  // Arithmetic helpers

  /** w shifted right by 6k bits, as k steps of `cache >>= letterIdxBits`. */
  function Shifted(w: nat, k: nat): nat {
    if k == 0 then w else Shifted(w / 64, k - 1)
  }

  /** k shifts by six bits divide by 2^(6k): Shifted is `w >> (6 * k)`. */
  lemma {:induction false} ShiftedIsDivision(w: nat, k: nat)
    ensures Shifted(w, k) == w / Pow2(LetterIdxBits * k)
    decreases k
  {
    if k > 0 {
      ShiftedIsDivision(w / 64, k - 1);
      Pow2Six(k - 1);
      DivDiv(w, 64, Pow2(6 * (k - 1)));
    }
  }

  /** Six more bits multiply the power by 64. */
  lemma Pow2Six(k: nat)
    ensures Pow2(6 * (k + 1)) == 64 * Pow2(6 * k)
  {
    var e := 6 * k;
    calc {
      Pow2(e + 6);
      2 * Pow2(e + 5);
      4 * Pow2(e + 4);
      8 * Pow2(e + 3);
      16 * Pow2(e + 2);
      32 * Pow2(e + 1);
      64 * Pow2(e);
    }
  }

  /** Dividing by b and then by c is dividing by b * c. */
  lemma DivDiv(a: nat, b: nat, c: nat)
    requires 0 < b && 0 < c
    ensures a / b / c == a / (b * c)
  {
    var q, r := a / b, a % b;
    var q2, r2 := q / c, q % c;
    assert a == b * (c * q2 + r2) + r;
    assert b * (c * q2 + r2) == (b * c) * q2 + b * r2;
    MulLe(b, r2, c - 1);
    assert b * (c - 1) == b * c - b;
    DivUnique(a, b * c, q2, b * r2 + r);
  }

  /** Division is determined by a quotient and a remainder below the divisor. */
  lemma DivUnique(a: nat, m: nat, q: nat, r: nat)
    requires 0 < m && r < m && a == m * q + r
    ensures a / m == q
  {
    var q', r' := a / m, a % m;
    assert a == m * q' + r';
    if q' < q {
      MulLe(m, q' + 1, q);
    } else if q < q' {
      MulLe(m, q + 1, q');
    }
  }

  lemma MulLe(m: nat, x: nat, y: nat)
    requires x <= y
    ensures m * x <= m * y
  {
  }

  // ---------------------------------------------------------------------
  // The random source and the generator

  /** The shared random source: the values it will ever return, and how
      many of them have been drawn. */
  class Source {
    const draws: seq<Word63>
    var pos: nat

    ghost predicate Valid()
      reads this
    {
      pos <= |draws|
    }

    /** The chunks the not-yet-drawn values will yield. */
    ghost function Upcoming(): seq<nat>
      reads this
      requires Valid()
    {
      Stream(draws[pos..])
    }

    /** The source can serve one draw now and n letters in all. */
    ghost predicate CanGenerate(n: int)
      reads this
      requires Valid()
    {
      pos < |draws| && n <= |Accepted(Upcoming())|
    }

    constructor (draws: seq<Word63>)
      ensures Valid() && this.draws == draws && pos == 0
    {
      this.draws := draws;
      pos := 0;
    }

    /** Returns the next 63-bit value. */
    method Int63() returns (w: Word63)
      requires Valid() && pos < |draws|
      modifies this
      ensures Valid() && pos == old(pos) + 1
      ensures w == draws[old(pos)]
    {
      w := draws[pos];
      pos := pos + 1;
    }
  }

  /** Builds a string of n random letters from src. A negative n is
      refused: the builder's `Grow(n)` rejects it before anything is drawn. */
  method RandStringBytesMaskImprSrcSB(src: Source, n: int) returns (s: string)
    requires n >= 0
    requires src.Valid() && src.CanGenerate(n)
    modifies src
    ensures src.Valid()
    ensures |s| == n
    ensures s == Generated(old(src.Upcoming()), |s|)
    ensures src.pos == old(src.pos) + DrawsUsed(old(src.Upcoming()), |s|)
  {
    ghost var pos0, p := src.pos, src.pos;
    ghost var ws: seq<nat> := src.draws;
    ghost var full := Stream(ws[pos0..]);
    ghost var goal: nat := n;
    ghost var rest := full;
    ghost var read: nat := 0;
    assert full == src.Upcoming();
    var sb: string := "";
    var i := n - 1;
    Start(ws, pos0, full, goal);
    var cache: nat := src.Int63();
    assert cache == ws[p];
    p := p + 1;
    var remain: nat := 10;
    while i >= 0
      invariant src.Valid() && p == src.pos && ws == src.draws
      invariant i == n - 1 - |sb|
      invariant Running(ws, pos0, p, cache, remain, full, goal, rest, sb, read)
      decreases |rest|
    {
      if remain == 0 {
        Refill(ws, pos0, p, cache, remain, full, goal, rest, sb, read);
        cache := src.Int63();
        assert cache == ws[p];
        p := p + 1;
        remain := 10;
      }
      Advance(ws, pos0, p, cache, remain, full, goal, rest, sb, read);
      var idx := cache % 64;
      if idx < AlphabetSize {
        sb := sb + [Letter(idx)];
        i := i - 1;
      }
      rest := rest[1..];
      read := read + 1;
      cache := cache / 64;
      remain := remain - 1;
    }
    Finish(ws, pos0, p, cache, remain, full, goal, rest, sb, read);
    s := sb;
  }

  /** The generator's state between two chunks: `Reading` for the chunks,
      `Progress` for the letters, and ten chunks served per draw taken. */
  ghost predicate Ready(ws: seq<nat>, pos0: nat, p: nat, cache: nat, remain: nat,
                        full: seq<nat>, goal: nat, rest: seq<nat>, got: string, read: nat) {
    && pos0 < p && remain <= 10 && |got| <= read
    && Reading(ws, p, cache, remain, rest)
    && read + remain == 10 * (p - pos0)
    && Progress(full, goal, rest, got, read)
  }

  /** The loop invariant: `Ready`, and once a chunk has been read the
      current draw is no longer whole. */
  ghost predicate Running(ws: seq<nat>, pos0: nat, p: nat, cache: nat, remain: nat,
                          full: seq<nat>, goal: nat, rest: seq<nat>, got: string, read: nat) {
    Ready(ws, pos0, p, cache, remain, full, goal, rest, got, read) && (read > 0 ==> remain < 10)
  }

  /** The draw at entry is always possible and puts the loop in its
      initial state. */
  lemma Start(ws: seq<nat>, pos0: nat, full: seq<nat>, goal: nat)
    requires pos0 < |ws| && full == Stream(ws[pos0..]) && goal <= |Accepted(full)|
    ensures Running(ws, pos0, pos0 + 1, ws[pos0], 10, full, goal, full, "", 0)
  {
    assert Reading(ws, pos0, 0, 0, full);
    DrawNext(ws, pos0, 0, full);
  }

  /** A used-up draw while letters are missing: the next draw exists, and
      taking it makes ten chunks available. */
  lemma Refill(ws: seq<nat>, pos0: nat, p: nat, cache: nat, remain: nat,
               full: seq<nat>, goal: nat, rest: seq<nat>, got: string, read: nat)
    requires Running(ws, pos0, p, cache, remain, full, goal, rest, got, read)
    requires remain == 0 && |got| < goal
    ensures p < |ws| && Ready(ws, pos0, p + 1, ws[p], 10, full, goal, rest, got, read)
  {
    ProgressLeft(full, goal, rest, got, read);
    DrawNext(ws, p, cache, rest);
  }

  /** Reading one chunk while letters are missing: its letter is appended
      when the chunk is accepted, and the chunk is consumed either way. */
  lemma Advance(ws: seq<nat>, pos0: nat, p: nat, cache: nat, remain: nat,
                full: seq<nat>, goal: nat, rest: seq<nat>, got: string, read: nat)
    requires Ready(ws, pos0, p, cache, remain, full, goal, rest, got, read)
    requires 0 < remain && |got| < goal
    ensures rest != []
    ensures cache % 64 < AlphabetSize ==>
      Running(ws, pos0, p, cache / 64, remain - 1, full, goal, rest[1..], got + [Letter(cache % 64)], read + 1)
    ensures cache % 64 >= AlphabetSize ==>
      Running(ws, pos0, p, cache / 64, remain - 1, full, goal, rest[1..], got, read + 1)
  {
    ReadNext(ws, p, cache, remain, rest);
    ProgressStep(full, goal, rest, got, read);
  }

  /** At loop exit the letters and the draws taken are those of the
      specification. */
  lemma Finish(ws: seq<nat>, pos0: nat, p: nat, cache: nat, remain: nat,
               full: seq<nat>, goal: nat, rest: seq<nat>, got: string, read: nat)
    requires Running(ws, pos0, p, cache, remain, full, goal, rest, got, read)
    requires |got| >= goal
    ensures got == Take(full, goal) && |got| == goal
    ensures p == pos0 + DrawsUsed(full, goal)
  {
    ProgressDone(full, goal, rest, got, read);
    if goal > 0 {
      DrawCount(read, remain, p - pos0);
    }
  }

  /** Draws taken, in terms of the chunks read: each draw gives ten, and
      the last one has served at least one. */
  lemma DrawCount(read: nat, remain: nat, drawn: nat)
    requires read + remain == 10 * drawn && remain < 10
    ensures drawn == (read - 1) / 10 + 1
  {
  }

  /** The generator's chunk state: the chunks still to be read are the
      remaining chunks of the current draw followed by those of the draws
      not yet taken. */
  ghost predicate Reading(ws: seq<nat>, p: nat, cache: nat, remain: nat, rest: seq<nat>) {
    p <= |ws| && rest == Chunks(cache, remain) + Stream(ws[p..])
  }

  /** When the current draw is used up, taking the next one refills the
      chunks; this is possible while chunks remain. */
  lemma DrawNext(ws: seq<nat>, p: nat, cache: nat, rest: seq<nat>)
    requires Reading(ws, p, cache, 0, rest) && rest != []
    ensures p < |ws| && Reading(ws, p + 1, ws[p], 10, rest)
  {
    assert rest == Stream(ws[p..]);
    assert ws[p..][1..] == ws[p + 1..];
  }

  /** Reading one chunk of the current draw: it is the draw's six low bits,
      and the draw is shifted right by six bits. */
  lemma ReadNext(ws: seq<nat>, p: nat, cache: nat, remain: nat, rest: seq<nat>)
    requires remain > 0 && Reading(ws, p, cache, remain, rest)
    ensures rest != [] && rest[0] == cache % 64
    ensures Reading(ws, p, cache / 64, remain - 1, rest[1..])
  {
    var later := Stream(ws[p..]);
    assert Chunks(cache, remain) == [cache % 64] + Chunks(cache / 64, remain - 1);
    assert rest == [cache % 64] + (Chunks(cache / 64, remain - 1) + later);
  }

  /** The generator's output state: `got` letters are out, the letters
      still to come are those of the unread chunks, and `read` chunks have
      been read towards the shortest prefix holding `goal` letters. */
  ghost predicate Progress(full: seq<nat>, goal: nat, rest: seq<nat>, got: string, read: nat) {
    && |got| <= goal
    && goal - |got| <= |Accepted(rest)|
    && got + Take(rest, goal - |got|) == Take(full, goal)
    && read + PrefixFor(rest, goal - |got|) == PrefixFor(full, goal)
  }

  lemma ProgressLeft(full: seq<nat>, goal: nat, rest: seq<nat>, got: string, read: nat)
    requires Progress(full, goal, rest, got, read) && |got| < goal
    ensures rest != []
  {
  }

  /** Reading the next chunk while letters are missing: when it is accepted
      its letter is appended, and the chunk is consumed either way. */
  lemma ProgressStep(full: seq<nat>, goal: nat, rest: seq<nat>, got: string, read: nat)
    requires Progress(full, goal, rest, got, read) && |got| < goal && rest != []
    ensures rest[0] < AlphabetSize ==> Progress(full, goal, rest[1..], got + [Letter(rest[0])], read + 1)
    ensures rest[0] >= AlphabetSize ==> Progress(full, goal, rest[1..], got, read + 1)
  {
    var c, k := rest[0], goal - |got|;
    if c < AlphabetSize {
      var tail := Take(rest[1..], k - 1);
      assert Take(rest, k) == [Letter(c)] + tail;
      assert (got + [Letter(c)]) + tail == got + ([Letter(c)] + tail);
    }
  }

  lemma ProgressDone(full: seq<nat>, goal: nat, rest: seq<nat>, got: string, read: nat)
    requires Progress(full, goal, rest, got, read) && |got| >= goal
    ensures got == Take(full, goal) && read == PrefixFor(full, goal)
  {
    assert got + "" == got;
  }
}
