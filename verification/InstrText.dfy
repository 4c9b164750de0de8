/**
  The disassembly text of an instruction word, seven binary groups, and a reader that inverts it.
 */
module InstrText {
  import opened Words
  import opened Arithmetic
  import opened Isa

  const WORD_BITS: nat := 32

  // ---- binary digits ----

  function Digit(one: bool): char {
    if one then '1' else '0'
  }

  /** The first `n` digits that come out of a word when its top bit is looked at and the rest moved up. */
  function Digits(w: Word, n: nat): (s: string)
    ensures |s| == n
    decreases n
  {
    if n == 0 then "" else [Digit(w >= SIGN_BIT)] + Digits(w * 2 % WORD_MOD, n - 1)
  }

  lemma {:induction false} DigitsAreDigits(w: Word, n: nat)
    ensures forall i :: 0 <= i < n ==> Digits(w, n)[i] == '0' || Digits(w, n)[i] == '1'
    decreases n
  {
    if n > 0 {
      DigitsAreDigits(w * 2 % WORD_MOD, n - 1);
    }
  }

  /** The number that a string of digits stands for, by its last digit. */
  function ReadBinary(s: string): nat
    decreases |s|
  {
    if s == "" then 0 else 2 * ReadBinary(s[..|s| - 1]) + (if s[|s| - 1] == '1' then 1 else 0)
  }

  /** `h` moved up by `m` bits. */
  function Shifted(h: nat, m: nat): nat {
    if m == 0 then h else 2 * Shifted(h, m - 1)
  }

  lemma {:induction false} ReadBound(s: string)
    ensures ReadBinary(s) < Pow2(|s|)
    decreases |s|
  {
    if s != "" {
      ReadBound(s[..|s| - 1]);
    }
  }

  lemma {:induction false} ReadConcat(s: string, t: string)
    ensures ReadBinary(s + t) == Shifted(ReadBinary(s), |t|) + ReadBinary(t)
    decreases |t|
  {
    if t == "" {
      assert s + t == s;
    } else {
      assert (s + t)[..|s| + |t| - 1] == s + t[..|t| - 1];
      ReadConcat(s, t[..|t| - 1]);
    }
  }

  lemma {:induction false} ShiftedSum(a: nat, b: nat, m: nat)
    ensures Shifted(a + b, m) == Shifted(a, m) + Shifted(b, m)
  {
    if m > 0 {
      ShiftedSum(a, b, m - 1);
    }
  }

  lemma {:induction false} ShiftedTwice(h: nat, n: nat, m: nat)
    ensures Shifted(Shifted(h, n), m) == Shifted(h, n + m)
  {
    if m > 0 {
      ShiftedTwice(h, n, m - 1);
    }
  }

  lemma {:induction false} ShiftedOne(m: nat)
    ensures Shifted(1, m) == Pow2(m) && Shifted(0, m) == 0
  {
    if m > 0 {
      ShiftedOne(m - 1);
    }
  }

  const LOW_BITS: nat := 31

  lemma HighBit()
    ensures Shifted(1, LOW_BITS) == SIGN_BIT && Shifted(0, LOW_BITS) == 0
  {
    ShiftedOne(LOW_BITS);
    Pow2Of32();
    assert Pow2(LOW_BITS + 1) == 2 * Pow2(LOW_BITS);
  }

  /** What the first `n` digits leave over. */
  ghost predicate Leaves(w: nat, value: nat, n: nat, rest: nat) {
    n <= WORD_BITS && w == Shifted(value, WORD_BITS - n) + rest && rest < Pow2(WORD_BITS - n)
  }

  /** One digit in front of `n - 1` others. */
  lemma LeavesOneMore(w: Word, value: nat, n: nat, rest: nat)
    requires 0 < n <= WORD_BITS && Leaves(w * 2 % WORD_MOD, value, n - 1, rest)
    ensures Leaves(w, Shifted(if w >= SIGN_BIT then 1 else 0, n - 1) + value, n, rest / 2)
  {
    var h, m := if w >= SIGN_BIT then 1 else 0, WORD_BITS - n;
    HighBit();
    ShiftedSum(Shifted(h, n - 1), value, m);
    ShiftedTwice(h, n - 1, m);
    assert Shifted(value, m + 1) == 2 * Shifted(value, m) && Pow2(m + 1) == 2 * Pow2(m);
  }

  lemma {:induction false} DigitsRead(w: Word, n: nat) returns (rest: nat)
    requires n <= WORD_BITS
    ensures Leaves(w, ReadBinary(Digits(w, n)), n, rest)
    decreases n
  {
    if n == 0 {
      rest := w;
      Pow2Of32();
      ShiftedOne(WORD_BITS);
    } else {
      var first, others := [Digit(w >= SIGN_BIT)], Digits(w * 2 % WORD_MOD, n - 1);
      rest := DigitsRead(w * 2 % WORD_MOD, n - 1);
      LeavesOneMore(w, ReadBinary(others), n, rest);
      ReadConcat(first, others);
      assert first[..0] == "" && ReadBinary(first) == if w >= SIGN_BIT then 1 else 0;
      rest := rest / 2;
    }
  }

  /** Read as a binary number, the 32 digits give the word back. */
  lemma ReadDigits(w: Word)
    ensures ReadBinary(Digits(w, WORD_BITS)) == w
  {
    var rest := DigitsRead(w, WORD_BITS);
  }

  // ---- the text ----

  /** Where the first `c` + 1 groups end. */
  function Bound(c: nat): nat
    requires c < 7
  {
    if c == 0 then 4 else if c == 1 then 9 else if c == 2 then 10 else if c == 3 then 15
    else if c == 4 then 20 else if c == 5 then 27 else 32
  }

  function StartOf(c: nat): nat
    requires c < 7
  {
    if c == 0 then 0 else Bound(c - 1)
  }

  predicate EndsGroup(i: nat) {
    i == 4 || i == 9 || i == 10 || i == 15 || i == 20 || i == 27 || i == 32
  }

  /** One group, or the end of one, lies between `i` and `j`. */
  predicate IsGroup(i: nat, j: nat) {
    i < j && EndsGroup(j) && forall k :: i < k < j ==> !EndsGroup(k)
  }

  lemma GroupPlace(c: nat)
    requires c < 7
    ensures IsGroup(StartOf(c), Bound(c)) && Bound(c) <= WORD_BITS
    ensures c < 6 ==> StartOf(c + 1) == Bound(c)
  {
  }

  /** One digit, and a space if it ends its group. */
  function Piece(bits: string, i: nat): string
    requires i < |bits|
  {
    if EndsGroup(i + 1) then [bits[i], ' '] else [bits[i]]
  }

  /** The text of the first `i` digits. */
  function Laid(bits: string, i: nat): string
    requires i <= |bits|
  {
    if i == 0 then "" else Laid(bits, i - 1) + Piece(bits, i - 1)
  }

  /** The text from digit `i` on. */
  function Rest(bits: string, i: nat): string
    requires i <= |bits|
    decreases |bits| - i
  {
    if i == |bits| then "" else Piece(bits, i) + Rest(bits, i + 1)
  }

  lemma Regroup(a: string, b: string, c: string)
    ensures (a + b) + c == a + (b + c)
  {
  }

  lemma {:induction false} LaidAndRest(bits: string, i: nat)
    requires i <= |bits|
    ensures Laid(bits, i) + Rest(bits, i) == Rest(bits, 0)
  {
    if i == 0 {
      assert Laid(bits, 0) + Rest(bits, 0) == Rest(bits, 0);
    } else {
      LaidAndRest(bits, i - 1);
      Regroup(Laid(bits, i - 1), Piece(bits, i - 1), Rest(bits, i));
    }
  }

  /** From one end of a group to the next. */
  lemma {:induction false} RestGroup(bits: string, i: nat, j: nat)
    requires IsGroup(i, j) && j <= |bits|
    ensures Rest(bits, i) == bits[i..j] + " " + Rest(bits, j)
    decreases j - i
  {
    if i + 1 == j {
      assert Piece(bits, i) == bits[i..j] + " ";
    } else {
      assert IsGroup(i + 1, j);
      RestGroup(bits, i + 1, j);
      GroupHead(bits[i], bits[i + 1..j], Rest(bits, j));
      assert bits[i..j] == [bits[i]] + bits[i + 1..j];
    }
  }

  lemma GroupHead(first: char, others: string, rest: string)
    ensures [first] + (others + " " + rest) == [first] + others + " " + rest
  {
  }

  /** The disassembly: seven groups of 4, 5, 1, 5, 5, 7 and 5 digits, each ended by a space. */
  function Text(w: Word): string {
    Laid(Digits(w, WORD_BITS), WORD_BITS)
  }

  // ---- the reader ----

  /** The characters before the first space. */
  function Group(s: string): (r: string)
    ensures |r| <= |s|
  {
    if s == "" || s[0] == ' ' then "" else [s[0]] + Group(s[1..])
  }

  /** What follows `k` groups and their spaces. */
  function Skip(s: string, k: nat): string {
    if k == 0 then s
    else
      var n := |Group(s)| + 1;
      if n <= |s| then Skip(s[n..], k - 1) else ""
  }

  function ReadField(s: string, k: nat): nat {
    ReadBinary(Group(Skip(s, k)))
  }

  lemma {:induction false} GroupOf(digits: string, rest: string)
    requires ' ' !in digits
    ensures Group(digits + " " + rest) == digits
    decreases |digits|
  {
    var s := digits + " " + rest;
    if digits != "" {
      assert s[1..] == digits[1..] + " " + rest;
      GroupOf(digits[1..], rest);
    }
  }

  lemma SkipOne(digits: string, rest: string, k: nat)
    requires ' ' !in digits
    ensures Skip(digits + " " + rest, k + 1) == Skip(rest, k)
  {
    var s := digits + " " + rest;
    GroupOf(digits, rest);
    assert s[|digits| + 1..] == rest;
  }

  // ---- the round trip ----

  /** One group of the text: read it at the head, or pass it. */
  lemma GroupStep(digits: string, rest: string, k: nat)
    requires ' ' !in digits
    ensures ReadField(digits + " " + rest, 0) == ReadBinary(digits)
    ensures ReadField(digits + " " + rest, k + 1) == ReadField(rest, k)
  {
    GroupOf(digits, rest);
    SkipOne(digits, rest, k);
  }

  lemma RestStep(bits: string, i: nat, j: nat, k: nat)
    requires IsGroup(i, j) && j <= |bits| && ' ' !in bits
    ensures ReadField(Rest(bits, i), 0) == ReadBinary(bits[i..j])
    ensures ReadField(Rest(bits, i), k + 1) == ReadField(Rest(bits, j), k)
  {
    RestGroup(bits, i, j);
    GroupStep(bits[i..j], Rest(bits, j), k);
  }

  lemma ReadHere(bits: string, c: nat)
    requires |bits| == WORD_BITS && ' ' !in bits && c < 7
    ensures StartOf(c) <= Bound(c) <= |bits|
    ensures ReadField(Rest(bits, StartOf(c)), 0) == ReadBinary(bits[StartOf(c)..Bound(c)])
  {
    GroupPlace(c);
    RestStep(bits, StartOf(c), Bound(c), 0);
  }

  lemma ReadPast(bits: string, c: nat, k: nat)
    requires |bits| == WORD_BITS && ' ' !in bits && c < 6
    ensures StartOf(c) <= |bits| && StartOf(c + 1) <= |bits|
    ensures ReadField(Rest(bits, StartOf(c)), k + 1) == ReadField(Rest(bits, StartOf(c + 1)), k)
  {
    GroupPlace(c);
    RestStep(bits, StartOf(c), Bound(c), k);
  }

  /** The reader sees the seven groups of digits. */
  lemma {:induction false} ReadGroups(bits: string, c: nat, k: nat)
    requires |bits| == WORD_BITS && ' ' !in bits && c + k < 7
    ensures StartOf(c) <= |bits| && StartOf(c + k) <= Bound(c + k) <= |bits|
    ensures ReadField(Rest(bits, StartOf(c)), k) == ReadBinary(bits[StartOf(c + k)..Bound(c + k)])
    decreases k
  {
    if k == 0 {
      ReadHere(bits, c);
    } else {
      ReadPast(bits, c, k - 1);
      ReadGroups(bits, c + 1, k - 1);
    }
  }

  /** The digits up to `j` are those up to `i`, moved up, and those between. */
  lemma PrefixRead(bits: string, i: nat, j: nat)
    requires i <= j <= |bits|
    ensures ReadBinary(bits[..j]) == Shifted(ReadBinary(bits[..i]), j - i) + ReadBinary(bits[i..j])
    ensures ReadBinary(bits[i..j]) < Pow2(j - i)
  {
    assert bits[..j] == bits[..i] + bits[i..j];
    ReadConcat(bits[..i], bits[i..j]);
    ReadBound(bits[i..j]);
  }

  lemma SmallShifts(h: nat)
    ensures Shifted(h, 1) == 2 * h && Shifted(h, 5) == 32 * h && Shifted(h, 7) == 128 * h
    ensures Pow2(1) == 2 && Pow2(4) == 16 && Pow2(5) == 32 && Pow2(7) == 128
  {
    assert Shifted(h, 1) == 2 * h && Pow2(1) == 2;
    assert Shifted(h, 2) == 4 * h && Pow2(2) == 4;
    assert Shifted(h, 3) == 8 * h && Pow2(3) == 8;
    assert Shifted(h, 4) == 16 * h;
    assert Shifted(h, 6) == 64 * h && Pow2(6) == 64;
  }

  lemma PrefixFive(bits: string, i: nat)
    requires i + 5 <= |bits|
    ensures ReadBinary(bits[..i + 5]) == ReadBinary(bits[..i]) * 32 + ReadBinary(bits[i..i + 5])
    ensures ReadBinary(bits[i..i + 5]) < 32
  {
    PrefixRead(bits, i, i + 5);
    SmallShifts(ReadBinary(bits[..i]));
  }

  lemma PrefixOne(bits: string, i: nat)
    requires i + 1 <= |bits|
    ensures ReadBinary(bits[..i + 1]) == ReadBinary(bits[..i]) * 2 + ReadBinary(bits[i..i + 1])
    ensures ReadBinary(bits[i..i + 1]) < 2
  {
    PrefixRead(bits, i, i + 1);
    SmallShifts(ReadBinary(bits[..i]));
  }

  lemma PrefixSeven(bits: string, i: nat)
    requires i + 7 <= |bits|
    ensures ReadBinary(bits[..i + 7]) == ReadBinary(bits[..i]) * 128 + ReadBinary(bits[i..i + 7])
    ensures ReadBinary(bits[i..i + 7]) < 128
  {
    PrefixRead(bits, i, i + 7);
    SmallShifts(ReadBinary(bits[..i]));
  }

  lemma FirstFour(bits: string)
    requires 4 <= |bits|
    ensures ReadBinary(bits[..4]) == ReadBinary(bits[0..4]) < 16
  {
    assert bits[..4] == bits[0..4];
    ReadBound(bits[..4]);
    SmallShifts(0);
  }

  /** The groups are the fields of the word that the digits stand for. */
  lemma GroupsAreFields(bits: string, w: Word) returns (f: Instr)
    requires |bits| == WORD_BITS && ReadBinary(bits) == w
    ensures f.cond == ReadBinary(bits[0..4]) && f.opr == ReadBinary(bits[4..9]) && f.s == ReadBinary(bits[9..10])
    ensures f.rd == ReadBinary(bits[10..15]) && f.ra == ReadBinary(bits[15..20])
    ensures f.imm7 == ReadBinary(bits[20..27]) && f.rb == ReadBinary(bits[27..32])
    ensures Pack(f) == w
  {
    FirstFour(bits);
    PrefixFive(bits, 4);
    PrefixOne(bits, 9);
    PrefixFive(bits, 10);
    PrefixFive(bits, 15);
    PrefixSeven(bits, 20);
    PrefixFive(bits, 27);
    assert bits[..32] == bits;
    f := Instr(ReadBinary(bits[0..4]), ReadBinary(bits[4..9]), ReadBinary(bits[9..10]), ReadBinary(bits[10..15]),
               ReadBinary(bits[15..20]), ReadBinary(bits[20..27]), ReadBinary(bits[27..32]));
  }

  /** Main result: the reader recovers all seven fields of any word from its text. */
  lemma ReadText(w: Word)
    ensures var f, t := Decode(w), Text(w);
            && ReadField(t, 0) == f.cond && ReadField(t, 1) == f.opr && ReadField(t, 2) == f.s
            && ReadField(t, 3) == f.rd && ReadField(t, 4) == f.ra && ReadField(t, 5) == f.imm7 && ReadField(t, 6) == f.rb
  {
    var bits := Digits(w, WORD_BITS);
    LaidAndRest(bits, WORD_BITS);
    assert Laid(bits, WORD_BITS) + "" == Laid(bits, WORD_BITS);
    DigitsAreDigits(w, WORD_BITS);
    ReadGroups(bits, 0, 0);
    ReadGroups(bits, 0, 1);
    ReadGroups(bits, 0, 2);
    ReadGroups(bits, 0, 3);
    ReadGroups(bits, 0, 4);
    ReadGroups(bits, 0, 5);
    ReadGroups(bits, 0, 6);
    ReadDigits(w);
    var f := GroupsAreFields(bits, w);
    PackUnpack(f);
  }

  // ---- the disassembler ----

  /** How many groups are complete after `i` digits. */
  function GroupNumber(i: nat): nat {
    if i < 4 then 0 else if i < 9 then 1 else if i < 10 then 2 else if i < 15 then 3
    else if i < 20 then 4 else if i < 27 then 5 else if i < 32 then 6 else 7
  }

  /** What a group of `width` digits that ends at `end` still wants after `i` digits. */
  function Left(width: nat, end: nat, i: nat): int {
    if i >= end then 0 else if end - i < width then end - i else width
  }

  /** The countdowns after `i` digits. */
  function Counters(i: nat): (s: seq<int>)
    ensures |s| == 7
  {
    [Left(4, 4, i), Left(5, 9, i), Left(1, 10, i), Left(5, 15, i), Left(5, 20, i), Left(7, 27, i), Left(5, 32, i)]
  }

  /** Counting down the current group: it reaches zero exactly at the group's end. */
  lemma CountStep(i: nat)
    requires i < 32
    ensures GroupNumber(i) < 7
    ensures Counters(i)[GroupNumber(i) := Counters(i)[GroupNumber(i)] - 1] == Counters(i + 1)
    ensures Counters(i + 1)[GroupNumber(i)] == 0 <==> EndsGroup(i + 1)
    ensures GroupNumber(i + 1) == GroupNumber(i) + if EndsGroup(i + 1) then 1 else 0
  {
    var next := Counters(i)[GroupNumber(i) := Counters(i)[GroupNumber(i)] - 1];
    assert forall j :: 0 <= j < 7 ==> next[j] == Counters(i + 1)[j];
  }

  /** One more character for every digit, and one for every group. */
  lemma {:induction false} LaidLength(bits: string, i: nat)
    requires i <= |bits| <= 32
    ensures |Laid(bits, i)| == i + GroupNumber(i)
  {
    if i > 0 {
      LaidLength(bits, i - 1);
      CountStep(i - 1);
    }
  }

  // ---- the text, character by character ----

  /** Every digit stands behind those before it and one space for each group before it; a space follows the last of a group. */
  lemma {:induction false} LaidAt(bits: string, n: nat, i: nat)
    requires i < n <= |bits| <= 32
    ensures i + GroupNumber(i) < |Laid(bits, n)| && Laid(bits, n)[i + GroupNumber(i)] == bits[i]
    ensures EndsGroup(i + 1) ==> i + GroupNumber(i) + 1 < |Laid(bits, n)| && Laid(bits, n)[i + GroupNumber(i) + 1] == ' '
  {
    LaidLength(bits, n - 1);
    if i < n - 1 {
      LaidAt(bits, n - 1, i);
    }
  }

  lemma {:induction false} TopBit(w: nat, n: nat)
    requires w < Pow2(n + 1)
    ensures Bit(w, n) == if w >= Pow2(n) then 1 else 0
    decreases n
  {
    if n > 0 {
      TopBit(w / 2, n - 1);
    }
  }

  lemma HalfRemainder(w: nat, m: nat)
    requires m > 0
    ensures w % (2 * m) % 2 == w % 2 && w % (2 * m) / 2 == w / 2 % m
  {
    var q, r := w / 2 / m, w / 2 % m;
    Split(w / 2, m);
    assert w == q * (2 * m) + (2 * r + w % 2);
    Quotient(q, 2 * m, 2 * r + w % 2);
  }

  lemma {:induction false} LowBits(w: nat, n: nat, j: nat)
    requires j < n
    ensures Bit(w % Pow2(n), j) == Bit(w, j)
    decreases n
  {
    HalfRemainder(w, Pow2(n - 1));
    if j > 0 {
      LowBits(w / 2, n - 1, j - 1);
    }
  }

  lemma MovedUp(w: Word, j: nat)
    requires j < 31
    ensures Bit(w * 2 % WORD_MOD, j + 1) == Bit(w, j)
  {
    Pow2Of32();
    assert Pow2(32) == 2 * Pow2(31);
    HalfRemainder(w * 2, Pow2(31));
    LowBits(w, 31, j);
  }

  /** The digits are the bits of the word, the highest first. */
  lemma {:induction false} DigitIsBit(w: Word, n: nat, i: nat)
    requires i < n && i < 32
    ensures Digits(w, n)[i] == if Bit(w, 31 - i) == 1 then '1' else '0'
    decreases n
  {
    if i == 0 {
      Pow2Of32();
      assert Pow2(32) == 2 * Pow2(31);
      TopBit(w, 31);
    } else {
      MovedUp(w, 31 - i);
      DigitIsBit(w * 2 % WORD_MOD, n - 1, i - 1);
    }
  }

  /** Character by character: 32 bits in binary, a space after bits 28, 23, 22, 17, 12, 5 and 0. */
  lemma TextCharacters(w: Word, i: nat)
    requires i < 32
    ensures var at := i + (if i < 4 then 0 else if i < 9 then 1 else if i < 10 then 2 else if i < 15 then 3
                           else if i < 20 then 4 else if i < 27 then 5 else 6);
            && at + 1 < |Text(w)| == 39
            && Text(w)[at] == (if Bit(w, 31 - i) == 1 then '1' else '0')
            && (i in {3, 8, 9, 14, 19, 26, 31} ==> Text(w)[at + 1] == ' ')
  {
    LaidAt(Digits(w, 32), 32, i);
    LaidLength(Digits(w, 32), 32);
    DigitIsBit(w, 32, i);
  }

  /** The buffer holds `text`, and zeros behind it. */
  ghost predicate Written(buff: seq<char>, text: string) {
    64 <= |buff| && |text| <= 64 && buff[..|text|] == text && forall i :: |text| <= i < 64 ==> buff[i] == '0'
  }

  method PutChar(buff: array<char>, head: nat, ch: char, ghost text: string)
    requires Written(buff[..], text) && head == |text| < 64
    modifies buff
    ensures Written(buff[..], text + [ch])
  {
    buff[head] := ch;
  }

  /** One bit, and the space if its group is complete. */
  method PutBit(buff: array<char>, head0: nat, one: bool, last: bool, ghost bits: string,
          ghost i: nat) returns (head: nat)
    requires i < |bits| <= 32 && Written(buff[..], Laid(bits, i)) && head0 == |Laid(bits, i)| < 62
    requires bits[i] == Digit(one) && last == EndsGroup(i + 1)
    modifies buff
    ensures Written(buff[..], Laid(bits, i + 1)) && head == |Laid(bits, i + 1)| == head0 + if last then 2 else 1
  {
    PutChar(buff, head0, if one then '1' else '0', Laid(bits, i));
    head := head0 + 1;
    if last {
      PutChar(buff, head, ' ', Laid(bits, i) + [bits[i]]);
      assert Laid(bits, i) + [bits[i]] + [' '] == Laid(bits, i) + [bits[i], ' '];
      head := head + 1;
    }
  }

  method Clear(buff: array<char>)
    requires 64 <= buff.Length
    modifies buff
    ensures forall i :: 0 <= i < 64 ==> buff[i] == '0'
  {
    for k := 0 to 64
      invariant forall i :: 0 <= i < k ==> buff[i] == '0'
    {
      buff[k] := '0';
    }
  }

  /** The unread digits of the word are the top digits of what is left of it. */
  ghost predicate Unread(bits: string, word: Word, cnt: nat) {
    |bits| == WORD_BITS && cnt <= 32 && Digits(word, cnt) == bits[32 - cnt..]
  }

  lemma NextDigit(bits: string, word: Word, cnt: nat)
    requires Unread(bits, word, cnt) && cnt > 0
    ensures bits[32 - cnt] == Digit(word >= SIGN_BIT)
    ensures Unread(bits, word * 2 % WORD_MOD, cnt - 1)
  {
    var rest := bits[32 - cnt..];
    assert rest[0] == bits[32 - cnt] && rest[1..] == bits[33 - cnt..];
  }

  /** The state of the loop after `i` digits. */
  ghost predicate Round(buff: seq<char>, bits: string, head: nat, space: seq<int>, c: nat, i: nat) {
    && i <= |bits| == WORD_BITS && Written(buff, Laid(bits, i)) && head == |Laid(bits, i)|
    && space == Counters(i) && c == GroupNumber(i)
  }

  /** The body of the loop: one digit, one count down, and a space when the count is through. */
  method NextRound(buff: array<char>, ghost bits: string, head0: nat, one: bool, space0: seq<int>, c0: nat,
          ghost i: nat)
    returns (head: nat, space: seq<int>, c: nat)
    requires i < 32 && Round(buff[..], bits, head0, space0, c0, i) && bits[i] == Digit(one)
    modifies buff
    ensures Round(buff[..], bits, head, space, c, i + 1)
  {
    CountStep(i);
    LaidLength(bits, i);
    space, c := space0[c0 := space0[c0] - 1], c0;
    var last := space[c] == 0;
    head := PutBit(buff, head0, one, last, bits, i);
    if last {
      c := c + 1;
    }
  }

  lemma FirstRound(buff: seq<char>, bits: string)
    requires |bits| == WORD_BITS && 64 <= |buff| && forall i :: 0 <= i < 64 ==> buff[i] == '0'
    ensures Round(buff, bits, 0, [4, 5, 1, 5, 5, 7, 5], 0, 0)
  {
  }

  method Terminate(buff: array<char>, ghost bits: string, head0: nat, ghost space: seq<int>,
          ghost c: nat) returns (head: nat)
    requires Round(buff[..], bits, head0, space, c, WORD_BITS)
    modifies buff
    ensures Written(buff[..], Laid(bits, WORD_BITS) + ['\0']) && head == WORD_BITS + 8
  {
    LaidLength(bits, WORD_BITS);
    PutChar(buff, head0, '\0', Laid(bits, WORD_BITS));
    head := head0 + 1;
  }

  /** The disassembler's loop over the 32 bits, with a countdown per group. */
  method InstrToString(buff: array<char>, instr: Word) returns (head: nat)
    requires 64 <= buff.Length
    modifies buff
    ensures Written(buff[..], Text(instr) + ['\0']) && head == WORD_BITS + 8
  {
    ghost var bits := Digits(instr, WORD_BITS);
    Clear(buff);
    head := 0;
    var space := [4, 5, 1, 5, 5, 7, 5];
    var c: nat, cnt: nat, word: Word := 0, 32, instr;
    FirstRound(buff[..], bits);
    while cnt > 0
      invariant cnt <= 32 && Unread(bits, word, cnt) && Round(buff[..], bits, head, space, c, 32 - cnt)
    {
      NextDigit(bits, word, cnt);
      cnt := cnt - 1;
      head, space, c := NextRound(buff, bits, head, word >= SIGN_BIT, space, c, 31 - cnt);
      word := word * 2 % WORD_MOD;
    }
    head := Terminate(buff, bits, head, space, c);
  }
}
