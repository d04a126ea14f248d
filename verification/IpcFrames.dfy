/** The bytes one message takes up in a worker's pipe: a packed header and the body. */
module IpcFrames {
  import opened Powers

  type Byte = b: int | 0 <= b < 256

  datatype Message = Message(id: Byte, src: Byte, body: seq<Byte>)

  /** Size of the packed header: id, source and a 64-bit length. */
  const HEADER: nat := 10
  const PIPE_BUF: nat := 4096

  /** The lengths a 64-bit size can hold. */
  predicate Sized(m: Message) { |m.body| < Pow(256, 8) }

  /** The `k` low bytes of `n`, lowest first. */
  function Little(n: nat, k: nat): (s: seq<Byte>)
    ensures |s| == k
  {
    if k == 0 then [] else [n % 256] + Little(n / 256, k - 1)
  }

  function FromLittle(s: seq<Byte>): nat {
    if s == [] then 0 else s[0] + 256 * FromLittle(s[1..])
  }

  function Header(m: Message): (s: seq<Byte>)
    ensures |s| == HEADER
  {
    [m.id, m.src] + Little(|m.body|, 8)
  }

  function Frame(m: Message): (s: seq<Byte>)
    ensures |s| == HEADER + |m.body|
  {
    Header(m) + m.body
  }

  function Frames(ms: seq<Message>): seq<Byte> {
    if ms == [] then [] else Frame(ms[0]) + Frames(ms[1..])
  }

  lemma {:induction false} LittleInverse(n: nat, k: nat)
    requires n < Pow(256, k)
    ensures FromLittle(Little(n, k)) == n
  {
    if k > 0 {
      LittleInverse(n / 256, k - 1);
      assert Little(n, k)[1..] == Little(n / 256, k - 1);
    }
  }

  /** A header read back gives the message's id, source and length. */
  lemma HeaderParses(m: Message)
    requires Sized(m)
    ensures Header(m)[0] == m.id && Header(m)[1] == m.src && FromLittle(Header(m)[2..]) == |m.body|
  {
    LittleInverse(|m.body|, 8);
    assert Header(m)[2..] == Little(|m.body|, 8);
  }

  /** A header is ten bytes long, and any length that 64 bits can hold fits in it. */
  lemma HeaderSizes(m: Message)
    ensures |Header(m)| == 10 && (Sized(m) <==> |m.body| < 0x1_0000_0000_0000_0000)
  {
    assert Pow(256, 2) == 0x1_0000;
    PowAdd(256, 2, 2);
    PowAdd(256, 4, 4);
  }

  lemma {:induction false} FramesConcat(a: seq<Message>, b: seq<Message>)
    ensures Frames(a + b) == Frames(a) + Frames(b)
  {
    hide Frame;
    if a == [] {
      assert a + b == b;
    } else {
      FramesConcat(a[1..], b);
      assert (a + b)[0] == a[0] && (a + b)[1..] == a[1..] + b;
      Regroup(Frame(a[0]), Frames(a[1..]), Frames(b));
    }
  }

  lemma Regroup<T>(x: seq<T>, y: seq<T>, z: seq<T>)
    ensures (x + y) + z == x + (y + z)
  {}

  lemma FramesSnoc(a: seq<Message>, m: Message)
    ensures Frames(a + [m]) == Frames(a) + Frame(m)
  {
    FramesConcat(a, [m]);
    assert Frames([m]) == Frame(m) + Frames([]);
  }

  /** Equal streams of frames come from equal messages: where one frame ends and the next begins is never
      in doubt. */
  lemma {:induction false} FramesInjective(a: seq<Message>, b: seq<Message>)
    requires forall m :: m in a + b ==> Sized(m)
    requires Frames(a) == Frames(b)
    ensures a == b
  {
    if a != [] && b != [] {
      var x, y := Frame(a[0]) + Frames(a[1..]), Frame(b[0]) + Frames(b[1..]);
      assert x[..HEADER] == Header(a[0]) && y[..HEADER] == Header(b[0]);
      assert a[0] in a + b && b[0] in a + b;
      HeaderParses(a[0]);
      HeaderParses(b[0]);
      assert x[HEADER..HEADER + |a[0].body|] == a[0].body;
      assert y[HEADER..HEADER + |b[0].body|] == b[0].body;
      assert x[|Frame(a[0])|..] == Frames(a[1..]) && y[|Frame(b[0])|..] == Frames(b[1..]);
      assert forall m :: m in a[1..] + b[1..] ==> m in a + b;
      FramesInjective(a[1..], b[1..]);
      assert a == [a[0]] + a[1..] && b == [b[0]] + b[1..];
    }
  }
}
