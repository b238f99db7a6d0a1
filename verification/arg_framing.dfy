/**
 * The argc/argv guarantee handlers rely on: every argument is followed by a
 * zero byte and the arguments lie one after another in a single buffer, so
 * the length of argument i is `argv[i+1] - argv[i] - 1` even when it holds
 * zero bytes of its own. Pointers are modelled as offsets into the buffer;
 * `argv` holds `argc + 1` offsets, the last one just past the final
 * terminator, so that the last argument's length follows by the same rule.
 */
module ArgFraming {
  import opened Bytes

  /** A request as the parser hands it over: one buffer and `argc + 1` offsets into it. */
  datatype Frame = Frame(buf: seq<byte>, argv: seq<int>)

  function Argc(f: Frame): int
  {
    |f.argv| - 1
  }

  /** Offset `i` closes argument `i - 1`: it lies after the previous offset, inside the buffer, just past a terminator. */
  predicate Closes(f: Frame, i: int)
  {
    && 1 <= i < |f.argv|
    && 0 <= f.argv[i - 1]
    && f.argv[i - 1] < f.argv[i]
    && f.argv[i] <= |f.buf|
    && f.buf[f.argv[i] - 1] == Nul
  }

  /**
   * The contiguity guarantee: the first argument starts the buffer, each
   * argument ends with a terminator just before the next one starts, and the
   * last offset is the end of the buffer.
   */
  predicate Contiguous(f: Frame)
  {
    && |f.argv| >= 1
    && f.argv[0] == 0
    && f.argv[|f.argv| - 1] == |f.buf|
    && forall i :: 1 <= i < |f.argv| ==> Closes(f, i)
  }

  /** The length rule: `argv[i+1] - argv[i] - 1`. */
  function ArgLength(f: Frame, i: nat): int
    requires i < Argc(f)
  {
    f.argv[i + 1] - f.argv[i] - 1
  }

  /** Argument `i` as a byte string, its length taken by the rule rather than by a zero scan. */
  function Arg(f: Frame, i: nat): (a: seq<byte>)
    requires Contiguous(f) && i < Argc(f)
    ensures |a| == ArgLength(f, i)
  {
    assert Closes(f, i + 1);
    f.buf[f.argv[i] .. f.argv[i + 1] - 1]
  }

  /** Every argument of a contiguous frame, in order. */
  function Split(f: Frame): (args: seq<seq<byte>>)
    requires Contiguous(f)
    ensures |args| == Argc(f)
    ensures forall i :: 0 <= i < |args| ==> args[i] == Arg(f, i)
  {
    seq(Argc(f), i requires 0 <= i < Argc(f) => Arg(f, i))
  }

  /** The frame `f` with one more argument `a` appended, followed by its terminator. */
  function Append(f: Frame, a: seq<byte>): Frame
  {
    Frame(f.buf + a + [Nul], f.argv + [|f.buf| + |a| + 1])
  }

  /** Appending keeps a frame contiguous, keeps its arguments, and adds `a` as the last one. */
  lemma AppendContiguous(f: Frame, a: seq<byte>)
    requires Contiguous(f)
    ensures Contiguous(Append(f, a))
    ensures Argc(Append(f, a)) == Argc(f) + 1
    ensures Arg(Append(f, a), Argc(f)) == a
    ensures forall i :: 0 <= i < Argc(f) ==> Arg(Append(f, a), i) == Arg(f, i)
  {
    var h := Append(f, a);
    var n := |f.argv|;
    forall i | 1 <= i < |h.argv|
      ensures Closes(h, i)
    {
      if i < n {
        assert Closes(f, i);
        assert h.argv[i - 1] == f.argv[i - 1] && h.argv[i] == f.argv[i];
        assert h.buf[h.argv[i] - 1] == f.buf[f.argv[i] - 1];
      } else {
        assert h.argv[i - 1] == |f.buf|;
      }
    }
    forall i | 0 <= i < Argc(f)
      ensures Arg(h, i) == Arg(f, i)
    {
      assert Closes(f, i + 1);
      assert h.argv[i] == f.argv[i] && h.argv[i + 1] == f.argv[i + 1];
      assert h.buf[h.argv[i] .. h.argv[i + 1] - 1] == f.buf[f.argv[i] .. f.argv[i + 1] - 1];
    }
    assert h.buf[|f.buf| .. |f.buf| + |a|] == a;
  }

  /** Lays the arguments out as the parser does: each followed by a terminator, one after another. */
  function Lay(args: seq<seq<byte>>): (f: Frame)
    ensures |f.argv| == |args| + 1
    decreases |args|
  {
    if args == [] then Frame([], [0])
    else Append(Lay(args[..|args| - 1]), args[|args| - 1])
  }

  /**
   * Laying out any arguments gives a contiguous frame in which argument i
   * occupies exactly the bytes of `args[i]`, so the length rule returns its
   * true length, zero bytes inside it included.
   */
  lemma {:induction false} LayIsContiguous(args: seq<seq<byte>>)
    ensures Contiguous(Lay(args))
    ensures forall i :: 0 <= i < |args| ==> ArgLength(Lay(args), i) == |args[i]|
    ensures forall i :: 0 <= i < |args| ==> Arg(Lay(args), i) == args[i]
    decreases |args|
  {
    if args != [] {
      var n := |args| - 1;
      var init := args[..n];
      LayIsContiguous(init);
      AppendContiguous(Lay(init), args[n]);
      assert forall i :: 0 <= i < n ==> init[i] == args[i];
    }
  }

  /** Splitting a laid-out request gives back the arguments. */
  lemma SplitLay(args: seq<seq<byte>>)
    ensures Contiguous(Lay(args))
    ensures Split(Lay(args)) == args
  {
    LayIsContiguous(args);
  }

  /** Offsets of a contiguous frame never decrease. */
  lemma {:induction false} ArgvMonotone(f: Frame, i: nat, j: nat)
    requires Contiguous(f) && i <= j < |f.argv|
    ensures f.argv[i] <= f.argv[j]
    decreases j - i
  {
    if i < j {
      assert Closes(f, j);
      ArgvMonotone(f, i, j - 1);
    }
  }

  /** A contiguous frame with its last argument removed. */
  function DropLast(f: Frame): Frame
    requires Contiguous(f) && Argc(f) > 0
  {
    var n := Argc(f);
    assert Closes(f, n);
    Frame(f.buf[..f.argv[n - 1]], f.argv[..n])
  }

  /** Dropping the last argument keeps the frame contiguous, and appending it again restores the frame. */
  lemma DropLastAppend(f: Frame)
    requires Contiguous(f) && Argc(f) > 0
    ensures Contiguous(DropLast(f)) && Argc(DropLast(f)) == Argc(f) - 1
    ensures Append(DropLast(f), Arg(f, Argc(f) - 1)) == f
  {
    var n := Argc(f);
    var g := DropLast(f);
    assert Closes(f, n);
    forall i | 1 <= i < |g.argv|
      ensures Closes(g, i)
    {
      assert Closes(f, i);
      assert g.argv[i] == f.argv[i] && g.argv[i - 1] == f.argv[i - 1];
      ArgvMonotone(f, i, n - 1);
    }
    assert Closes(f, n);
    var last := Arg(f, n - 1);
    assert f.buf == g.buf + last + [Nul];
  }

  /** Every contiguous frame is the layout of its own arguments. */
  lemma {:induction false} LaySplit(f: Frame)
    requires Contiguous(f)
    ensures Lay(Split(f)) == f
    decreases |f.argv|
  {
    var n := Argc(f);
    if n > 0 {
      var g := DropLast(f);
      DropLastAppend(f);
      LaySplit(g);
      AppendContiguous(g, Arg(f, n - 1));
      var args := Split(f);
      assert args[..n - 1] == Split(g);
    } else {
      assert f == Frame([], [0]);
    }
  }

  /** strlen: the number of bytes before the first terminator (all of them if there is none). */
  function StrLen(s: seq<byte>): (n: nat)
    ensures n <= |s|
    ensures forall j :: 0 <= j < n ==> s[j] != Nul
    ensures n < |s| ==> s[n] == Nul
  {
    if s == [] || s[0] == Nul then 0 else 1 + StrLen(s[1..])
  }

  /** The bytes the C string `argv[i]` points into: from its offset to the end of the buffer. */
  function Tail(f: Frame, i: nat): seq<byte>
    requires Contiguous(f) && i < Argc(f)
  {
    assert Closes(f, i + 1);
    f.buf[f.argv[i]..]
  }

  /**
   * A zero scan from the start of an argument finds its length exactly when
   * the argument holds no zero byte, and otherwise falls short; this is why
   * binary payloads need the length rule.
   */
  lemma StrLenVersusRule(f: Frame, i: nat)
    requires Contiguous(f) && i < Argc(f)
    ensures StrLen(Tail(f, i)) <= ArgLength(f, i)
    ensures StrLen(Tail(f, i)) == ArgLength(f, i) <==> Nul !in Arg(f, i)
  {
    assert Closes(f, i + 1);
    var s := Tail(f, i);
    var a := Arg(f, i);
    var len := ArgLength(f, i);
    assert s[..len] == a;
    assert s[len] == Nul;
    if Nul in a {
      var k :| 0 <= k < |a| && a[k] == Nul;
      assert s[k] == Nul;
    }
  }

  /** Concretely: "SET" followed by the payload 01 00 02; a zero scan reports 1 byte, the rule 3. */
  lemma EmbeddedZeroInLastArgument()
    ensures Lay([[0x53, 0x45, 0x54], [0x01, 0x00, 0x02]]) ==
            Frame([0x53, 0x45, 0x54, 0x00, 0x01, 0x00, 0x02, 0x00], [0, 4, 8])
    ensures Contiguous(Frame([0x53, 0x45, 0x54, 0x00, 0x01, 0x00, 0x02, 0x00], [0, 4, 8]))
    ensures Arg(Frame([0x53, 0x45, 0x54, 0x00, 0x01, 0x00, 0x02, 0x00], [0, 4, 8]), 1) == [0x01, 0x00, 0x02]
    ensures StrLen(Tail(Frame([0x53, 0x45, 0x54, 0x00, 0x01, 0x00, 0x02, 0x00], [0, 4, 8]), 1)) == 1
  {
    var args: seq<seq<byte>> := [[0x53, 0x45, 0x54], [0x01, 0x00, 0x02]];
    assert args[..1] == [[0x53, 0x45, 0x54]];
    assert args[..1][..0] == [];
    SplitLay(args);
  }
}
