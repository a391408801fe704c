/** The 64-entry sliding window that refuses repeated record sequence numbers (src/protocol/replay.cpp). */
module Replay {
  import opened Core

  const WINDOW_BITS: nat := 64

  /** A snapshot of the window's three fields. Bit `d` of the bitmap stands for sequence `highest - d`. */
  datatype Window = Window(highest: u64, bitmap: bv64, initialized: bool)

  const EMPTY: Window := Window(0, 0, false)

  // The word operations of the window, named so that proofs about whole shifts need not look inside a word.

  function Up(b: bv64): bv64 { b << 1 }

  function Down(b: bv64): bv64 { b >> 1 }

  function Or(x: bv64, y: bv64): bv64 { x | y }

  predicate Odd(b: bv64) { b & 1 == 1 }

  /** `b << n`, one place at a time. */
  function Left(b: bv64, n: nat): bv64 {
    if n == 0 then b else Up(Left(b, n - 1))
  }

  /** `b >> n`, one place at a time. */
  function Right(b: bv64, n: nat): bv64 {
    if n == 0 then b else Down(Right(b, n - 1))
  }

  /** `(bitmap >> d) & 1`. */
  predicate Bit(bitmap: bv64, d: nat) {
    Odd(Right(bitmap, d))
  }

  predicate Seen(w: Window, s: u64) {
    w.initialized && s <= w.highest && w.highest - s < WINDOW_BITS && Bit(w.bitmap, w.highest - s)
  }

  function Check(w: Window, s: u64): Result<Unit> {
    if !w.initialized || s > w.highest then Ok(Unit)
    else if w.highest - s >= WINDOW_BITS then Err(AuthenticationFailed)
    else if Bit(w.bitmap, w.highest - s) then Err(AuthenticationFailed)
    else Ok(Unit)
  }

  /** The window after `s` has been let in. */
  function Admit(w: Window, s: u64): Window
    requires Check(w, s).Ok?
  {
    if !w.initialized then Window(s, 1, true)
    else if s > w.highest then
      var shift := s - w.highest;
      if shift >= WINDOW_BITS then Window(s, 1, true) else
      Window(s, Or(Left(w.bitmap, shift), 1), true)
    else
      w.(bitmap := Or(w.bitmap, Left(1, w.highest - s)))
  }

  // ---- What the window stands for ----

  /** The window represents the set `a` of sequences let in since the last reset. */
  ghost predicate Tracks(w: Window, a: set<u64>) {
    && (w.initialized <==> a != {})
    && (w.initialized ==> w.highest in a)
    && (forall x | x in a :: x <= w.highest)
    && (w.initialized ==> forall d: nat | d < WINDOW_BITS ::
          Bit(w.bitmap, d) <==> d <= w.highest && w.highest - d in a)
  }

  /** A sequence is let in exactly when it is above the maximum, or within 64 of it and not yet in the set. */
  lemma CheckIsExact(w: Window, a: set<u64>, s: u64)
    requires Tracks(w, a)
    ensures Check(w, s).Ok? <==> (forall x | x in a :: s > x || x - s < WINDOW_BITS) && s !in a
    ensures Check(w, s).Ok? ==> s !in a
    ensures Seen(w, s) <==> s in a && w.highest - s < WINDOW_BITS
  {
    if w.initialized && s <= w.highest && w.highest - s < WINDOW_BITS {
      assert Bit(w.bitmap, w.highest - s) <==> w.highest - (w.highest - s) in a;
    }
  }

  // ---- What the shifts do to single bits ----

  lemma {:induction false} RightInner(b: bv64, n: nat)
    requires n > 0
    ensures Right(b, n) == Right(Down(b), n - 1)
  {
    hide Down;
    if n > 1 {
      RightInner(b, n - 1);
    }
  }

  lemma {:induction false} RightOfOr(x: bv64, y: bv64, n: nat)
    ensures Right(Or(x, y), n) == Or(Right(x, n), Right(y, n))
  {
    hide Down, Or;
    if n > 0 {
      RightOfOr(x, y, n - 1);
      DownOfOr(Right(x, n - 1), Right(y, n - 1));
    }
  }

  lemma DownOfOr(x: bv64, y: bv64)
    ensures Down(Or(x, y)) == Or(Down(x), Down(y))
  {}

  const TOP: bv64 := 0x8000_0000_0000_0000

  /** A word with at most one bit set. */
  predicate Single(b: bv64) { b & (b - 1) == 0 }

  lemma {:induction false} TopStaysSingle(n: nat)
    ensures Single(Right(TOP, n))
  {
    hide Down;
    if n == 0 {
      assert Single(TOP);
    } else {
      TopStaysSingle(n - 1);
      SingleDown(Right(TOP, n - 1));
    }
  }

  lemma SingleDown(b: bv64)
    requires Single(b)
    ensures Single(Down(b))
    ensures Odd(b) ==> Down(b) == 0
  {}

  lemma {:induction false} ZeroStays(n: nat, m: nat)
    requires n <= m && Right(TOP, n) == 0
    ensures Right(TOP, m) == 0
  {
    if n < m {
      ZeroStays(n, m - 1);
      assert Down(0) == 0;
    }
  }

  lemma TopReachesOne()
    ensures Right(TOP, 63) == 1
  {
    assert Right(TOP, 8) == 0x80_0000_0000_0000;
    assert Right(TOP, 16) == 0x8000_0000_0000;
    assert Right(TOP, 24) == 0x80_0000_0000;
    assert Right(TOP, 32) == 0x8000_0000;
    assert Right(TOP, 40) == 0x80_0000;
    assert Right(TOP, 48) == 0x8000;
    assert Right(TOP, 56) == 0x80;
  }

  /** The top bit of a word is not seen at any lower place. */
  lemma TopBitAbove(n: nat)
    requires n < 63
    ensures !Bit(TOP, n)
  {
    TopReachesOne();
    TopStaysSingle(n);
    hide Down, Odd;
    SingleDown(Right(TOP, n));
    if Odd(Right(TOP, n)) {
      ZeroStays(n + 1, 63);
    }
  }

  /** Shifting up by one place moves every bit up by one place. */
  lemma UpOne(b: bv64, d: nat)
    requires d < WINDOW_BITS
    ensures Bit(Up(b), d) <==> d > 0 && Bit(b, d - 1)
  {
    UpIsEven(b);
    DropTop(b);
    hide Down, Up, Odd, Or;
    if d > 0 {
      RightInner(Up(b), d);
      var low, top := Down(Up(b)), b & TOP;
      if top == TOP {
        TopBitAbove(d - 1);
      } else {
        ZeroBits(d - 1);
      }
      OrBits(low, top, d - 1);
    }
  }

  lemma UpIsEven(b: bv64)
    ensures !Odd(Up(b))
  {}

  lemma DropTop(b: bv64)
    ensures b == Or(Down(Up(b)), b & TOP)
    ensures b & TOP == TOP || b & TOP == 0
  {}

  lemma {:induction false} ZeroBits(n: nat)
    ensures Right(0, n) == 0 && !Bit(0, n)
  {
    assert Down(0) == 0 && !Odd(0);
    hide Down, Odd;
    if n > 0 {
      ZeroBits(n - 1);
    }
  }

  lemma {:induction false} UpMany(b: bv64, s: nat, d: nat)
    requires d < WINDOW_BITS
    ensures Bit(Left(b, s), d) <==> s <= d && Bit(b, d - s)
  {
    hide Up, Bit;
    if s > 0 {
      UpOne(Left(b, s - 1), d);
      if d > 0 {
        UpMany(b, s - 1, d - 1);
      }
    }
  }

  lemma OrBits(x: bv64, y: bv64, d: nat)
    ensures Bit(Or(x, y), d) <==> Bit(x, d) || Bit(y, d)
  {
    hide Or, Odd;
    RightOfOr(x, y, d);
    OddOr(Right(x, d), Right(y, d));
  }

  lemma OddOr(x: bv64, y: bv64)
    ensures Odd(Or(x, y)) <==> Odd(x) || Odd(y)
  {}

  lemma OneBit(d: nat)
    ensures Bit(1, d) <==> d == 0
  {
    assert Odd(1) && Down(1) == 0;
    hide Down, Odd;
    if d > 0 {
      RightInner(1, d);
      ZeroBits(d - 1);
    }
  }

  /** Letting a sequence in adds exactly it to the set the window stands for. */
  lemma AdmitTracks(w: Window, a: set<u64>, s: u64)
    requires Tracks(w, a) && Check(w, s).Ok?
    ensures Tracks(Admit(w, s), a + {s})
  {
    var w' := Admit(w, s);
    assert w.initialized ==> w.highest in a;
    forall d: nat | d < WINDOW_BITS
      ensures Bit(w'.bitmap, d) <==> d <= w'.highest && w'.highest - d in a + {s}
    {
      AdmitBit(w, a, s, d);
    }
  }

  lemma AdmitBit(w: Window, a: set<u64>, s: u64, d: nat)
    requires Tracks(w, a) && Check(w, s).Ok? && d < WINDOW_BITS
    ensures var w' := Admit(w, s);
            Bit(w'.bitmap, d) <==> d <= w'.highest && w'.highest - d in a + {s}
  {
    hide Bit, Left, Or;
    OneBit(d);
    if !w.initialized {
    } else if s <= w.highest {
      assert Bit(w.bitmap, d) <==> d <= w.highest && w.highest - d in a;
      var place := w.highest - s;
      OrBits(w.bitmap, Left(1, place), d);
      UpMany(1, place, d);
      if place <= d {
        OneBit(d - place);
      }
    } else {
      var shift := s - w.highest;
      if shift < WINDOW_BITS {
        OrBits(Left(w.bitmap, shift), 1, d);
        UpMany(w.bitmap, shift, d);
        if shift <= d {
          var e: nat := d - shift;
          assert Bit(w.bitmap, e) <==> e <= w.highest && w.highest - e in a;
          assert d <= s ==> s - d == w.highest - e;
        }
      }
    }
  }

  // ---- The object ----

  class ReplayWindow {
    var highest: u64
    var bitmap: bv64
    var initialized: bool
    /** Every sequence accepted since the last reset. */
    ghost var accepted: set<u64>

    function View(): Window
      reads this
    {
      Window(highest, bitmap, initialized)
    }

    ghost predicate Valid()
      reads this
    {
      Tracks(View(), accepted)
    }

    constructor ()
      ensures Valid() && View() == EMPTY && accepted == {}
    {
      highest, bitmap, initialized := 0, 0, false;
      accepted := {};
    }

    method Accept(sequence: u64) returns (r: Result<Unit>)
      requires Valid()
      modifies this
      ensures Valid()
      ensures r == Check(old(View()), sequence)
      ensures r.Ok? ==> sequence !in old(accepted) && accepted == old(accepted) + {sequence}
      ensures r.Ok? ==> View() == Admit(old(View()), sequence)
      ensures r.Err? ==> View() == old(View()) && accepted == old(accepted)
    {
      r := Check(View(), sequence);
      if r.Err? {
        return;
      }
      hide Bit, Left, Or, Tracks;
      CheckIsExact(View(), accepted, sequence);
      AdmitTracks(View(), accepted, sequence);
      accepted := accepted + {sequence};
      if !initialized {
        initialized := true;
        highest := sequence;
        bitmap := 1;
        return;
      }
      if sequence > highest {
        var shift := sequence - highest;
        if shift >= WINDOW_BITS {
          bitmap := 1;
        } else {
          bitmap := Or(Left(bitmap, shift), 1);
        }
        highest := sequence;
        return;
      }
      var delta := highest - sequence;
      bitmap := Or(bitmap, Left(1, delta));
    }

    method Reset()
      modifies this
      ensures Valid() && View() == EMPTY && accepted == {}
    {
      highest, bitmap, initialized := 0, 0, false;
      accepted := {};
    }
  }

  // ---- Whole runs ----

  /** The window and the answers after offering `offers` one after the other, starting from `w`. */
  function Offer(w: Window, offers: seq<u64>): (r: (Window, seq<bool>))
    ensures |r.1| == |offers|
  {
    if offers == [] then (w, []) else
    var (before, answers) := Offer(w, offers[..|offers| - 1]);
    var s := offers[|offers| - 1];
    if Check(before, s).Ok? then (Admit(before, s), answers + [true]) else (before, answers + [false])
  }

  ghost function Admitted(offers: seq<u64>, answers: seq<bool>): set<u64>
    requires |offers| == |answers|
  {
    set i | 0 <= i < |offers| && answers[i] :: offers[i]
  }

  /** After any run of offers the window stands for exactly the set it accepted. */
  lemma {:induction false} OfferTracks(offers: seq<u64>)
    ensures Tracks(Offer(EMPTY, offers).0, Admitted(offers, Offer(EMPTY, offers).1))
  {
    if offers != [] {
      hide Tracks, Bit, Left, Or, Check, Admit;
      var n := |offers| - 1;
      var (before, earlier) := Offer(EMPTY, offers[..n]);
      OfferTracks(offers[..n]);
      AdmittedStep(offers[..n], earlier, offers[n], true);
      AdmittedStep(offers[..n], earlier, offers[n], false);
      assert offers == offers[..n] + [offers[n]];
      if Check(before, offers[n]).Ok? {
        AdmitTracks(before, Admitted(offers[..n], earlier), offers[n]);
      }
    }
  }

  lemma AdmittedStep(offers: seq<u64>, answers: seq<bool>, s: u64, yes: bool)
    requires |offers| == |answers|
    ensures Admitted(offers + [s], answers + [yes]) == Admitted(offers, answers) + if yes then {s} else {}
  {
    var o, a := offers + [s], answers + [yes];
    assert forall i | 0 <= i < |offers| :: o[i] == offers[i] && a[i] == answers[i];
    assert yes ==> a[|offers|] && o[|offers|] == s;
  }

  /** Over any run of offers after a reset no sequence is accepted twice, and a refused offer was either accepted
      before or trails an accepted one by the width of the window. */
  lemma {:induction false} NeverAcceptedTwice(offers: seq<u64>, j: nat)
    requires j < |offers|
    ensures var answers := Offer(EMPTY, offers).1;
            answers[j] <==> forall i | 0 <= i < j && answers[i] ::
              offers[i] != offers[j] && offers[i] < offers[j] + WINDOW_BITS
  {
    hide Tracks, Bit, Left, Or, Check, Admit;
    var n := |offers| - 1;
    var (before, earlier) := Offer(EMPTY, offers[..n]);
    var answers := Offer(EMPTY, offers).1;
    assert answers[..n] == earlier;
    if j < n {
      NeverAcceptedTwice(offers[..n], j);
      assert forall i | 0 <= i <= j :: answers[i] == earlier[i] && offers[i] == offers[..n][i];
    } else {
      OfferTracks(offers[..n]);
      var a := Admitted(offers[..n], earlier);
      CheckIsExact(before, a, offers[n]);
      assert forall i | 0 <= i < n && answers[i] :: earlier[i] && offers[..n][i] == offers[i] && offers[i] in a;
      assert forall x | x in a :: exists i :: 0 <= i < n && answers[i] && offers[i] == x;
    }
  }
}
