/** The packed borrow state of sixteen cells (`src/core/cell.rs`, `MultiOptRefCell`): one byte each, seen
    either as bytes or as one 128-bit word. */
module BorrowStates {
  import opened Iters

  const COUNT: int := 16
  const EMPTY: int := 0
  const NEUTRAL: int := 0x7F
  const BYTE: int := 0x100

  predicate IsByte(b: int) { 0 <= b < BYTE }

  // === Words and bytes === //

  ghost predicate AreBytes(s: seq<int>) {
    forall i :: 0 <= i < |s| ==> IsByte(s[i])
  }

  /** The word whose bytes, least significant first, are these. */
  function Word(s: seq<int>): int {
    if s == [] then 0 else s[0] + BYTE * Word(s[1..])
  }

  function Bytes(w: int, n: int): seq<int>
    requires n >= 0
    decreases n
  {
    if n == 0 then [] else [w % BYTE] + Bytes(w / BYTE, n - 1)
  }

  /** `BYTE` to the power of `n`: the modulus of words of `n` bytes. */
  function Modulus(n: int): (m: int)
    requires n >= 0
    ensures m >= 1
  {
    if n == 0 then 1 else BYTE * Modulus(n - 1)
  }

  /** `repeat_byte`. */
  function Repeated(b: int, n: int): seq<int>
    requires n >= 0
  {
    seq(n, _ => b)
  }

  lemma {:induction false} BytesOfWord(s: seq<int>)
    requires AreBytes(s)
    ensures Bytes(Word(s), |s|) == s && 0 <= Word(s) < Modulus(|s|)
  {
    if s != [] {
      BytesOfWord(s[1..]);
      assert Word(s) % BYTE == s[0] && Word(s) / BYTE == Word(s[1..]);
    }
  }

  lemma {:induction false} WordOfBytes(w: int, n: int)
    requires n >= 0
    ensures |Bytes(w, n)| == n && AreBytes(Bytes(w, n)) && Word(Bytes(w, n)) == w % Modulus(n)
    decreases n
  {
    if n > 0 {
      WordOfBytes(w / BYTE, n - 1);
      SplitModulo(w, Modulus(n - 1));
    }
  }

  /** Taking the remainder byte by byte. */
  lemma SplitModulo(w: int, m: int)
    requires m >= 1
    ensures w % (BYTE * m) == w % BYTE + BYTE * ((w / BYTE) % m)
  {
    var q, r := (w / BYTE) / m, (w / BYTE) % m;
    assert w / BYTE == m * q + r;
    assert w == (BYTE * m) * q + (w % BYTE + BYTE * r);
    assert 0 <= w % BYTE + BYTE * r < BYTE * m;
    RemainderIsUnique(w, BYTE * m, q, w % BYTE + BYTE * r);
  }

  lemma RemainderIsUnique(w: int, m: int, q: int, r: int)
    requires m >= 1 && w == m * q + r && 0 <= r < m
    ensures w % m == r
  {
    var d := w / m - q;
    assert m * d == r - w % m;
    if d >= 1 {
      ProductIsLarge(m, d);
    } else if d <= -1 {
      ProductIsLarge(m, -d);
    }
  }

  lemma {:induction false} ProductIsLarge(m: int, d: int)
    requires m >= 1 && d >= 1
    ensures m * d >= m
    decreases d
  {
    if d > 1 {
      ProductIsLarge(m, d - 1);
      assert m * d == m * (d - 1) + m;
    }
  }

  // === Adding one to every byte at once === //

  /** Addition of one to every byte, with carries from byte to byte. */
  function Ripple(s: seq<int>, carry: int): seq<int> {
    if s == [] then []
    else [(s[0] + 1 + carry) % BYTE] + Ripple(s[1..], (s[0] + 1 + carry) / BYTE)
  }

  /** Adding the words, modulo the word size, is rippling the bytes. */
  lemma {:induction false} RippleIsAddition(s: seq<int>, carry: int)
    requires AreBytes(s)
    ensures Bytes(Word(s) + Word(Repeated(1, |s|)) + carry, |s|) == Ripple(s, carry)
  {
    if s != [] {
      var rest, total := s[1..], s[0] + 1 + carry;
      assert Repeated(1, |s|)[1..] == Repeated(1, |rest|);
      var sum := Word(s) + Word(Repeated(1, |s|)) + carry;
      assert sum == total + BYTE * (Word(rest) + Word(Repeated(1, |rest|)));
      assert sum % BYTE == total % BYTE;
      assert sum / BYTE == total / BYTE + Word(rest) + Word(Repeated(1, |rest|));
      RippleIsAddition(rest, total / BYTE);
    }
  }

  /** The mask test: every byte has its highest bit set. */
  predicate AllHigh(s: seq<int>) {
    forall i :: 0 <= i < |s| ==> s[i] >= 0x80
  }

  /** The test alone rules out every carry, whatever the bytes were. */
  lemma {:induction false} HighMeansNoCarry(s: seq<int>)
    requires AreBytes(s)
    ensures |Ripple(s, 0)| == |s|
    ensures AllHigh(Ripple(s, 0)) <==> forall i :: 0 <= i < |s| ==> NEUTRAL <= s[i] < 0xFF
    ensures AllHigh(Ripple(s, 0)) ==> forall i :: 0 <= i < |s| ==> Ripple(s, 0)[i] == s[i] + 1
  {
    if s != [] {
      var r := Ripple(s, 0);
      if s[0] < 0xFF {
        HighMeansNoCarry(s[1..]);
        assert r == [s[0] + 1] + Ripple(s[1..], 0) && r[0] == s[0] + 1;
        assert AllHigh(r) <==> s[0] + 1 >= 0x80 && AllHigh(Ripple(s[1..], 0)) by {
          assert r[1..] == Ripple(s[1..], 0);
          if s[0] + 1 >= 0x80 && AllHigh(Ripple(s[1..], 0)) {
            forall i | 0 <= i < |r| ensures r[i] >= 0x80 { if i > 0 { assert r[i] == r[1..][i - 1]; } }
          }
          if AllHigh(r) {
            forall i | 0 <= i < |r| - 1 ensures r[1..][i] >= 0x80 { assert r[1..][i] == r[i + 1]; }
          }
        }
      } else {
        RippleLength(s[1..], 1);
        assert r[0] == 0;
      }
    }
  }

  lemma {:induction false} RippleLength(s: seq<int>, carry: int)
    ensures |Ripple(s, carry)| == |s|
  {
    if s != [] { RippleLength(s[1..], (s[0] + 1 + carry) / BYTE); }
  }

  /** Taking one back from every byte, when none is zero. */
  lemma {:induction false} SubtractOnes(s: seq<int>)
    requires AreBytes(s) && forall i :: 0 <= i < |s| ==> s[i] >= 1
    ensures AllMinusOne(s) == seq(|s|, i requires 0 <= i < |s| => s[i] - 1)
  {
    var less := seq(|s|, i requires 0 <= i < |s| => s[i] - 1);
    WordMinusOnes(s, less);
    BytesOfWord(less);
  }

  lemma {:induction false} WordMinusOnes(s: seq<int>, less: seq<int>)
    requires |less| == |s| && forall i :: 0 <= i < |s| ==> less[i] == s[i] - 1
    ensures Word(less) == Word(s) - Word(Repeated(1, |s|))
  {
    if s != [] {
      assert Repeated(1, |s|)[1..] == Repeated(1, |s| - 1);
      WordMinusOnes(s[1..], less[1..]);
    }
  }

  /** One added to every byte through the word, modulo the word size. */
  function AllPlusOne(states: seq<int>): seq<int> {
    Bytes((Word(states) + Word(Repeated(1, |states|))) % Modulus(|states|), |states|)
  }

  /** One taken from every byte through the word. */
  function AllMinusOne(states: seq<int>): seq<int> {
    Bytes(Word(states) - Word(Repeated(1, |states|)), |states|)
  }

  /** The group increment, whatever the bytes were: it passes the mask test exactly if every byte is from 0x7F
      to 0xFE, and then it is one more in every byte, without a carry from one to the next. */
  lemma GroupIncrement(states: seq<int>)
    requires AreBytes(states)
    ensures |AllPlusOne(states)| == |states|
    ensures AllHigh(AllPlusOne(states)) <==> forall i :: 0 <= i < |states| ==> NEUTRAL <= states[i] < 0xFF
    ensures AllHigh(AllPlusOne(states)) ==> forall i :: 0 <= i < |states| ==> AllPlusOne(states)[i] == states[i] + 1
  {
    var n, sum := |states|, Word(states) + Word(Repeated(1, |states|));
    RippleIsAddition(states, 0);
    HighMeansNoCarry(states);
    WordOfBytes(sum, n);
    BytesOfWord(Bytes(sum, n));
  }

  // === What a byte says === //

  /** The borrows of one cell that are out at some point of a run. */
  datatype Borrows = Borrows(full: bool, readers: int, writers: int)

  /** `try_borrow_all_mut` stores this in every byte. */
  const GROUP_WRITER: int := NEUTRAL + 1

  const MAX_READERS: int := 0x80
  const MAX_WRITERS: int := 0x7E

  /** The byte is neutral plus the readers minus the writers, of which only one kind is ever out. */
  ghost predicate Says(b: int, o: Borrows) {
    if !o.full then b == EMPTY && o.readers == 0 && o.writers == 0
    else
      && b == NEUTRAL + o.readers - o.writers
      && 0 <= o.readers <= MAX_READERS && 0 <= o.writers <= MAX_WRITERS && (o.readers == 0 || o.writers == 0)
  }

  /** A cell that is borrowed never reads as empty, and the byte tells the kinds of borrow apart. */
  lemma ByteIsTelling(b: int, o: Borrows)
    requires Says(b, o)
    ensures IsByte(b) && (b == EMPTY <==> !o.full)
    ensures 0 < b < NEUTRAL <==> o.writers > 0
    ensures b > NEUTRAL <==> o.readers > 0
  {
  }

  /** Where `CellBorrowRef::acquire` succeeds. */
  predicate CanRead(b: int) {
    (b + 1) % BYTE > NEUTRAL
  }

  /** Where `CellBorrowMut::acquire` succeeds. */
  predicate CanWrite(b: int) {
    b == NEUTRAL
  }

  /** What a byte must be for a guard to keep everybody else out. */
  lemma ExcludesIff(b: int)
    requires IsByte(b)
    ensures !CanRead(b) && !CanWrite(b) <==> b < NEUTRAL || b == 0xFF
  {
  }

  lemma AcquiringIsExact(b: int, o: Borrows)
    requires Says(b, o)
    ensures CanRead(b) <==> o.full && o.writers == 0 && o.readers < MAX_READERS
    ensures CanWrite(b) <==> o.full && o.writers == 0 && o.readers == 0
  {
  }

  // === Sixteen cells === //

  ghost predicate AllSay(states: seq<int>, out: seq<Borrows>) {
    |states| == COUNT && |out| == COUNT && forall i :: 0 <= i < COUNT ==> Says(states[i], out[i])
  }

  /** One reader more, or less, of every cell. */
  function AllRead(out: seq<Borrows>, delta: int): seq<Borrows> {
    seq(|out|, i requires 0 <= i < |out| => out[i].(readers := out[i].readers + delta))
  }

  // === Runs of one cell === //

  /** A full cell during a run: its byte, the guards of it that are out, the mutable guards of its whole group
      that are out, and how far the byte is off because of group guards dropped before. */
  datatype Lane = Lane(byte: int, readers: int, writers: int, groups: int, owed: int)

  /** `TakeGroup` also says whether the rest of the group is free. */
  datatype Step =
    | BorrowShared | BorrowMut | CloneShared | CloneMut | DropShared | DropMut
    | TakeGroup(othersFree: bool) | DropGroup

  /** Guards can only be cloned or dropped while they are out. */
  predicate May(l: Lane, s: Step) {
    match s
    case CloneShared | DropShared => l.readers > 0
    case CloneMut | DropMut => l.writers > 0
    case DropGroup => l.groups > 0
    case _ => true
  }

  /** A borrow that fails and a clone that panics leave the cell alone. Dropping a mutable group guard makes the
      byte neutral, whatever else is out. */
  function Next(l: Lane, s: Step): Lane {
    match s
    case BorrowShared => if CanRead(l.byte) then l.(byte := (l.byte + 1) % BYTE, readers := l.readers + 1) else l
    case BorrowMut => if CanWrite(l.byte) then l.(byte := NEUTRAL - 1, writers := l.writers + 1) else l
    case CloneShared => if l.byte == BYTE - 1 then l else l.(byte := l.byte + 1, readers := l.readers + 1)
    case CloneMut => if l.byte == EMPTY + 1 then l else l.(byte := (l.byte - 1) % BYTE, writers := l.writers + 1)
    case DropShared => l.(byte := (l.byte - 1) % BYTE, readers := l.readers - 1)
    case DropMut => l.(byte := (l.byte + 1) % BYTE, writers := l.writers - 1)
    case TakeGroup(othersFree) =>
      if othersFree && l.byte == NEUTRAL then l.(byte := GROUP_WRITER, groups := l.groups + 1) else l
    case DropGroup => l.(byte := NEUTRAL, groups := l.groups - 1, owed := l.readers - l.writers + l.groups - 1)
  }

  /** The byte is neutral plus the readers and group guards minus the writers, but for what it is off. */
  ghost predicate LaneOk(l: Lane) {
    && IsByte(l.byte) && l.readers >= 0 && l.writers >= 0 && l.groups >= 0
    && l.byte == (NEUTRAL + l.readers - l.writers + l.groups - l.owed) % BYTE
  }

  /** As long as the byte is not off, a writer excludes everybody else, and there is at most one group guard;
      but group guards and readers do not exclude each other. */
  ghost predicate Undisturbed(l: Lane) {
    && l.owed == 0 && l.groups <= 1
    && l.readers + l.groups <= MAX_READERS && l.writers <= MAX_WRITERS && (l.writers == 0 || l.readers + l.groups == 0)
  }

  lemma WrapsAround(x: int, d: int)
    ensures (x % BYTE + d) % BYTE == (x + d) % BYTE
  {
  }

  lemma UndisturbedIsExact(l: Lane)
    requires LaneOk(l) && Undisturbed(l)
    ensures l.byte == NEUTRAL + l.readers - l.writers + l.groups
  {
  }

  lemma NextIsOk(l: Lane, s: Step)
    requires LaneOk(l) && May(l, s)
    ensures LaneOk(Next(l, s)) && (!s.DropGroup? ==> Next(l, s).owed == l.owed)
  {
    var x := NEUTRAL + l.readers - l.writers + l.groups - l.owed;
    WrapsAround(x, 1);
    WrapsAround(x, -1);
  }

  /** The only step that disturbs a cell is the drop of a group guard with readers out. */
  lemma NextDisturbs(l: Lane, s: Step)
    requires LaneOk(l) && May(l, s) && Undisturbed(l)
    ensures Undisturbed(Next(l, s)) <==> !(s.DropGroup? && l.readers > 0)
  {
    UndisturbedIsExact(l);
  }

  ghost predicate CanRun(l: Lane, run: seq<Step>)
    decreases |run|
  {
    run == [] || (May(l, run[0]) && CanRun(Next(l, run[0]), run[1..]))
  }

  ghost function After(l: Lane, run: seq<Step>): Lane
    decreases |run|
  {
    if run == [] then l else After(Next(l, run[0]), run[1..])
  }

  /** A run does one step after the other. */
  lemma {:induction false} AfterMore(l: Lane, run: seq<Step>, s: Step)
    ensures After(l, run + [s]) == Next(After(l, run), s)
    ensures CanRun(l, run + [s]) <==> CanRun(l, run) && May(After(l, run), s)
    decreases |run|
  {
    var longer := run + [s];
    if run == [] {
      assert longer[1..] == [];
    } else {
      assert longer[1..] == run[1..] + [s];
      AfterMore(Next(l, run[0]), run[1..], s);
    }
  }

  const FREE: Lane := Lane(NEUTRAL, 0, 0, 0, 0)

  lemma {:induction false} RunIsOk(l: Lane, run: seq<Step>)
    requires LaneOk(l) && CanRun(l, run)
    ensures LaneOk(After(l, run))
    ensures (forall i :: 0 <= i < |run| ==> !run[i].DropGroup?) ==> After(l, run).owed == l.owed
    decreases |run|
  {
    if run != [] {
      NextIsOk(l, run[0]);
      RunIsOk(Next(l, run[0]), run[1..]);
    }
  }

  /** Once a run is over and no guard is out, the byte is neutral exactly if nothing was out when the last
      mutable group guard was dropped (or as many as a byte can count). */
  lemma CleanIffNothingOwed(run: seq<Step>)
    requires CanRun(FREE, run)
    requires var l := After(FREE, run); l.readers == l.writers == l.groups == 0
    ensures After(FREE, run).byte == NEUTRAL <==> After(FREE, run).owed % BYTE == 0
  {
    RunIsOk(FREE, run);
  }

  /** The drop of one mutable group guard: if no earlier one left anything behind, the byte is neutral in the
      end exactly if no reader of the cell was out when the group guard was dropped. With `n` readers out it
      stays `n` below: the value reads as mutably borrowed for ever, or as absent if there were 127. */
  lemma CleanIffReadersWentFirst(l: Lane, rest: seq<Step>)
    requires LaneOk(l) && Undisturbed(l) && l.groups == 1
    requires CanRun(Next(l, DropGroup), rest) && forall i :: 0 <= i < |rest| ==> !rest[i].DropGroup?
    requires var e := After(Next(l, DropGroup), rest); e.readers == e.writers == e.groups == 0
    ensures var e := After(Next(l, DropGroup), rest);
      && (e.byte == NEUTRAL <==> l.readers == 0)
      && e.byte == NEUTRAL - l.readers
      && (l.readers > 0 ==> !CanRead(e.byte) && !CanWrite(e.byte))
      && (e.byte == EMPTY <==> l.readers == 0x7F)
  {
    var dropped := Next(l, DropGroup);
    NextIsOk(l, DropGroup);
    assert dropped.owed == l.readers;
    RunIsOk(dropped, rest);
    OffBy(After(dropped, rest).byte, l.readers);
  }

  lemma OffBy(b: int, n: int)
    requires 0 <= n <= 0x7F && b == (NEUTRAL - n) % BYTE
    ensures b == NEUTRAL - n && (n > 0 ==> !CanRead(b) && !CanWrite(b))
  {
  }

  /** While a mutable group guard is out, single readers get in as if it were one of them: all of them but the
      last that a byte can count. Nobody else does. */
  lemma GroupWriterAdmitsReaders(l: Lane)
    requires LaneOk(l) && Undisturbed(l) && l.groups == 1
    ensures l.writers == 0 && !CanWrite(l.byte)
    ensures CanRead(l.byte) <==> l.readers < MAX_READERS - 1
  {
  }

  /** The two orders of dropping a group guard and a reader it admitted. */
  lemma DropOrderMatters()
    ensures var both := Next(Next(FREE, TakeGroup(true)), BorrowShared);
      && both == Lane(GROUP_WRITER + 1, 1, 0, 1, 0)
      && May(both, DropShared) && May(Next(both, DropShared), DropGroup)
      && Next(Next(both, DropShared), DropGroup) == FREE
      && May(both, DropGroup) && May(Next(both, DropGroup), DropShared)
      && Next(Next(both, DropGroup), DropShared) == Lane(NEUTRAL - 1, 0, 0, 0, 1)
  {
  }

  ghost function LaneOf(b: int, o: Borrows, groups: int, owed: int): Lane {
    Lane(b, o.readers, o.writers, groups, owed)
  }

  ghost predicate TrackedAt(b: int, o: Borrows, groups: int, owed: int) {
    if o.full then LaneOk(LaneOf(b, o, groups, owed)) else LaneOf(b, o, groups, owed) == Lane(EMPTY, 0, 0, 0, 0)
  }

  /** A step of a full cell, with the rest of its group left alone; what a byte says is kept if it was right. */
  lemma StepIsOk(b: int, o: Borrows, groups: int, owed: int, s: Step)
    requires TrackedAt(b, o, groups, owed) && o.full && May(LaneOf(b, o, groups, owed), s)
    requires !s.TakeGroup? && !s.DropGroup?
    ensures var next := Next(LaneOf(b, o, groups, owed), s);
      var after := Borrows(true, next.readers, next.writers);
      && TrackedAt(next.byte, after, groups, owed) && LaneOf(next.byte, after, groups, owed) == next
      && (Says(b, o) && groups == 0 && owed == 0 ==> Says(next.byte, after))
  {
    NextIsOk(LaneOf(b, o, groups, owed), s);
  }

  class MultiOptRefCell<T> {
    var states: seq<int>
    var values: seq<Option<T>>
    /** The guards of single cells, and shared guards of the group, that are out. */
    ghost var out: seq<Borrows>
    /** The mutable guards of the group that are out, and how far each byte is off because of earlier ones. */
    ghost var groups: int
    ghost var owed: seq<int>

    ghost function LaneAt(i: int): Lane
      requires 0 <= i < |states| && |states| <= |out| && |states| <= |owed|
      reads this
    {
      LaneOf(states[i], out[i], groups, owed[i])
    }

    /** What holds whatever was borrowed and dropped. */
    ghost predicate Tracked()
      reads this
    {
      && |states| == |out| == |values| == |owed| == COUNT
      && (forall i :: 0 <= i < COUNT ==> (values[i].Some? <==> out[i].full))
      && forall i {:trigger states[i]} :: 0 <= i < COUNT ==> TrackedAt(states[i], out[i], groups, owed[i])
    }

    /** What holds as long as the group was never borrowed mutably, or was given back undisturbed. */
    ghost predicate Valid()
      reads this
    {
      && AllSay(states, out) && |values| == COUNT && (forall i :: 0 <= i < COUNT ==> (values[i].Some? <==> out[i].full))
      && groups == 0 && |owed| == COUNT && forall i :: 0 <= i < COUNT ==> owed[i] == 0
    }

    lemma ValidIsTracked()
      requires Valid()
      ensures Tracked()
    {
    }

    constructor ()
      ensures Valid() && forall i :: 0 <= i < COUNT ==> out[i] == Borrows(false, 0, 0)
    {
      states := seq(COUNT, _ => EMPTY);
      values := seq(COUNT, _ => None);
      out := seq(COUNT, _ => Borrows(false, 0, 0));
      groups, owed := 0, seq(COUNT, _ => 0);
    }

    /** Only cell `i` changed, by one step. */
    twostate predicate Stepped(i: int, s: Step)
      requires old(Tracked()) && Tracked() && 0 <= i < COUNT
      reads this
    {
      && states == old(states)[i := states[i]] && out == old(out)[i := out[i]] && out[i].full == old(out)[i].full
      && LaneAt(i) == if old(out)[i].full then Next(old(LaneAt(i)), s) else old(LaneAt(i))
    }

    /** `try_borrow`: the byte is incremented first and looked at afterwards. */
    method TryBorrow(i: int) returns (ok: bool)
      requires Tracked() && 0 <= i < COUNT
      modifies this`states, this`out
      ensures Tracked() && (ok <==> CanRead(old(states[i]))) && Stepped(i, BorrowShared)
      ensures old(Valid()) ==> Valid()
      ensures old(Valid()) ==>
        (ok <==> old(out[i]).full && old(out[i]).writers == 0 && old(out[i]).readers < MAX_READERS)
      ensures out == if ok then old(out)[i := old(out[i]).(readers := old(out[i]).readers + 1)] else old(out)
    {
      if out[i].full { StepIsOk(states[i], out[i], groups, owed[i], BorrowShared); }
      if Says(states[i], out[i]) { AcquiringIsExact(states[i], out[i]); }
      var state := (states[i] + 1) % BYTE;
      ok := state > NEUTRAL;
      if ok {
        states := states[i := state];
        out := out[i := out[i].(readers := out[i].readers + 1)];
      }
    }

    /** `try_borrow_mut`. */
    method TryBorrowMut(i: int) returns (ok: bool)
      requires Tracked() && 0 <= i < COUNT
      modifies this`states, this`out
      ensures Tracked() && (ok <==> CanWrite(old(states[i]))) && Stepped(i, BorrowMut)
      ensures old(Valid()) ==> Valid()
      ensures old(Valid()) ==> (ok <==> old(out[i]).full && old(out[i]).writers == 0 && old(out[i]).readers == 0)
      ensures out == if ok then old(out)[i := old(out[i]).(writers := old(out[i]).writers + 1)] else old(out)
    {
      if out[i].full { StepIsOk(states[i], out[i], groups, owed[i], BorrowMut); }
      ok := states[i] == NEUTRAL;
      if ok {
        states := states[i := NEUTRAL - 1];
        out := out[i := out[i].(writers := out[i].writers + 1)];
      }
    }

    /** Cloning a guard, of either kind; it panics when there are too many. */
    method CloneGuard(i: int, mutable_: bool) returns (panicked: bool)
      requires Tracked() && 0 <= i < COUNT && (if mutable_ then out[i].writers else out[i].readers) > 0
      modifies this`states, this`out
      ensures Tracked() && Stepped(i, if mutable_ then CloneMut else CloneShared)
      ensures old(Valid()) ==> Valid()
      ensures old(Valid()) ==>
        (panicked <==> if mutable_ then old(out[i]).writers == MAX_WRITERS else old(out[i]).readers == MAX_READERS)
      ensures out ==
        if panicked then old(out)
        else if mutable_ then old(out)[i := old(out[i]).(writers := old(out[i]).writers + 1)]
        else old(out)[i := old(out[i]).(readers := old(out[i]).readers + 1)]
    {
      StepIsOk(states[i], out[i], groups, owed[i], if mutable_ then CloneMut else CloneShared);
      var state := states[i];
      panicked := state == if mutable_ then EMPTY + 1 else BYTE - 1;
      if panicked {
        return;
      }
      if mutable_ {
        states := states[i := (state - 1) % BYTE];
        out := out[i := out[i].(writers := out[i].writers + 1)];
      } else {
        states := states[i := state + 1];
        out := out[i := out[i].(readers := out[i].readers + 1)];
      }
    }

    /** Dropping a guard, of either kind. */
    method DropGuard(i: int, mutable_: bool)
      requires Tracked() && 0 <= i < COUNT && (if mutable_ then out[i].writers else out[i].readers) > 0
      modifies this`states, this`out
      ensures Tracked() && Stepped(i, if mutable_ then DropMut else DropShared)
      ensures old(Valid()) ==> Valid()
      ensures out ==
        if mutable_ then old(out)[i := old(out[i]).(writers := old(out[i]).writers - 1)]
        else old(out)[i := old(out[i]).(readers := old(out[i]).readers - 1)]
    {
      StepIsOk(states[i], out[i], groups, owed[i], if mutable_ then DropMut else DropShared);
      states := states[i := (if mutable_ then states[i] + 1 else states[i] - 1) % BYTE];
      out :=
        out[i := if mutable_ then out[i].(writers := out[i].writers - 1) else out[i].(readers := out[i].readers - 1)];
    }

    /** `try_replace`: fails exactly if the value is borrowed. */
    method TryReplace(i: int, value: Option<T>) returns (ok: bool, was: Option<T>)
      requires Valid() && 0 <= i < COUNT
      modifies this`states, this`values, this`out
      ensures Valid()
      ensures ok <==> old(out[i]).readers == 0 && old(out[i]).writers == 0
      ensures !ok ==> states == old(states) && values == old(values) && out == old(out)
      ensures ok ==>
        was == old(values[i]) && values == old(values)[i := value] && out == old(out)[i := Borrows(value.Some?, 0, 0)]
    {
      ByteIsTelling(states[i], out[i]);
      was := values[i];
      if states[i] != NEUTRAL && states[i] != EMPTY {
        return false, None;
      }
      states := states[i := if value.Some? then NEUTRAL else EMPTY];
      values := values[i := value];
      out := out[i := Borrows(value.Some?, 0, 0)];
      return true, was;
    }

    /** `try_borrow_all`: adds one to all bytes in one go, modulo the word size, and then looks at the highest
        bits. It succeeds exactly if every cell could be borrowed on its own, and then borrows each once. */
    method TryBorrowAll() returns (ok: bool)
      requires Valid()
      modifies this`states, this`out
      ensures Valid()
      ensures ok <==>
        forall i :: 0 <= i < COUNT ==> old(out)[i].full && old(out)[i].writers == 0 && old(out)[i].readers < MAX_READERS
      ensures !ok ==> states == old(states) && out == old(out)
      ensures ok ==>
        forall i :: 0 <= i < COUNT ==> out[i] == old(out)[i].(readers := old(out)[i].readers + 1)
    {
      forall i | 0 <= i < COUNT ensures IsByte(states[i]) { ByteIsTelling(states[i], out[i]); }
      var bumped := AllPlusOne(states);
      GroupIncrement(states);
      forall i | 0 <= i < COUNT
        ensures NEUTRAL <= states[i] < 0xFF <==> out[i].full && out[i].writers == 0 && out[i].readers < MAX_READERS
      {
        AcquiringIsExact(states[i], out[i]);
      }
      ok := AllHigh(bumped);
      if ok {
        states := bumped;
        out := AllRead(out, 1);
      }
    }

    /** `try_borrow_all_mut` as it is: it takes the group only if no byte says that anything in it is borrowed,
        but what it stores says that every cell has one reader. */
    method TryBorrowAllMut() returns (ok: bool)
      requires Tracked()
      modifies this`states, this`groups
      ensures Tracked()
      ensures ok <==> forall i :: 0 <= i < COUNT ==> old(states)[i] == NEUTRAL
      ensures old(Valid()) ==> (ok <==> forall i :: 0 <= i < COUNT ==> out[i] == Borrows(true, 0, 0))
      ensures !ok ==> states == old(states) && groups == old(groups)
      ensures ok ==> forall i {:trigger states[i]} :: 0 <= i < COUNT ==>
        LaneAt(i) == Next(old(LaneAt(i)), TakeGroup(true))
    {
      ok := forall i :: 0 <= i < COUNT ==> states[i] == NEUTRAL;
      if ok {
        forall i | 0 <= i < COUNT
          ensures states[i] == NEUTRAL && TrackedAt(GROUP_WRITER, out[i], groups + 1, owed[i])
        {
          NextIsOk(LaneAt(i), TakeGroup(true));
        }
        states := Repeated(GROUP_WRITER, COUNT);
        groups := groups + 1;
        forall i | 0 <= i < COUNT
          ensures states[i] == GROUP_WRITER && LaneAt(i) == Next(old(LaneAt(i)), TakeGroup(true))
        {
          assert old(states)[i] == NEUTRAL;
        }
      }
    }

    /** Dropping a mutable guard of the group makes every byte neutral. */
    method DropAllMut()
      requires Tracked() && groups > 0
      modifies this`states, this`groups, this`owed
      ensures Tracked()
      ensures forall i {:trigger states[i]} :: 0 <= i < COUNT ==> LaneAt(i) == Next(old(LaneAt(i)), DropGroup)
    {
      ghost var guards, left := out, groups - 1;
      forall i | 0 <= i < COUNT
        ensures out[i].full && TrackedAt(NEUTRAL, out[i], left, out[i].readers - out[i].writers + left)
      {
        assert TrackedAt(states[i], out[i], groups, owed[i]);
        NextIsOk(LaneAt(i), DropGroup);
      }
      states := Repeated(NEUTRAL, COUNT);
      groups := left;
      owed := seq(COUNT, i requires 0 <= i < COUNT => guards[i].readers - guards[i].writers + left);
      forall i | 0 <= i < COUNT ensures states[i] == NEUTRAL && LaneAt(i) == Next(old(LaneAt(i)), DropGroup) {
        assert owed[i] == guards[i].readers - guards[i].writers + left;
      }
    }

    /** Dropping a group guard: one is taken from all bytes in one go. */
    method DropAll()
      requires Valid() && forall i :: 0 <= i < COUNT ==> out[i].readers > 0
      modifies this`states, this`out
      ensures Valid()
      ensures forall i :: 0 <= i < COUNT ==> out[i] == old(out)[i].(readers := old(out)[i].readers - 1)
    {
      forall i | 0 <= i < COUNT ensures IsByte(states[i]) && states[i] >= 1 { ByteIsTelling(states[i], out[i]); }
      SubtractOnes(states);
      states := AllMinusOne(states);
      out := AllRead(out, -1);
    }
  }
}
