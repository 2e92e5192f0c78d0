/** Lists on the wire: items read one after another, and the arguments of a request. */
module Arguments {
  import opened Bytes
  import opened Wire

  /** n items in a row. */
  function Many<T>(read: bytes -> Parsed<T>, n: nat, s: bytes): (p: Parsed<seq<T>>)
    ensures p.Got? ==> |p.value| == n
  {
    if n == 0 then Got([], s)
    else
      match read(s)
      case Fail(e) => Fail(e)
      case Got(c, t) => After([c], Many(read, n - 1, t))
  }

  function After<T>(cs: seq<T>, p: Parsed<seq<T>>): (q: Parsed<seq<T>>)
    ensures q.Got? <==> p.Got?
  {
    if p.Fail? then Fail(p.error) else Got(cs + p.value, p.rest)
  }

  /** i of n items are read into cs, and t is left to read. */
  ghost predicate ManyLoop<T>(read: bytes -> Parsed<T>, n: nat, s: bytes, i: nat, cs: seq<T>, t: bytes) {
    i == |cs| <= n && Many(read, n, s) == After(cs, Many(read, n - i, t))
  }

  lemma ManyStart<T>(read: bytes -> Parsed<T>, n: nat, s: bytes)
    ensures ManyLoop(read, n, s, 0, [], s)
  {
    var p := Many(read, n, s);
    if p.Got? {
      assert [] + p.value == p.value;
    }
  }

  lemma ManyStep<T>(read: bytes -> Parsed<T>, n: nat, s: bytes, i: nat, cs: seq<T>, t: bytes)
    requires i < n && ManyLoop(read, n, s, i, cs, t)
    ensures read(t).Got? ==> ManyLoop(read, n, s, i + 1, cs + [read(t).value], read(t).rest)
    ensures read(t).Fail? ==> Many(read, n, s) == Fail(read(t).error)
  {
    if read(t).Got? {
      var q := Many(read, n - i - 1, read(t).rest);
      if q.Got? {
        Assoc(cs, [read(t).value], q.value);
      }
    }
  }

  lemma ManyEnd<T>(read: bytes -> Parsed<T>, n: nat, s: bytes, cs: seq<T>, t: bytes)
    requires ManyLoop(read, n, s, n, cs, t)
    ensures Many(read, n, s) == Got(cs, t)
  {
    assert cs + [] == cs;
  }

  lemma ManyCons<T>(read: bytes -> Parsed<T>, n: nat, s: bytes, cs: seq<T>, rest: bytes)
    requires read(s).Got? && Many(read, n, read(s).rest) == Got(cs, rest)
    ensures Many(read, n + 1, s) == Got([read(s).value] + cs, rest)
  {
  }

  // ---------- Arguments ----------

  function Args(bodies: seq<bytes>): (b: bytes)
  {
    if bodies == [] then [] else Arg(bodies[0]) + Args(bodies[1..])
  }

  lemma {:induction false} ArgsRoundTrip(bodies: seq<bytes>, rest: bytes)
    requires forall i :: 0 <= i < |bodies| ==> |bodies[i]| < TWO_32
    ensures Many(ReadArg, |bodies|, Args(bodies) + rest) == Got(bodies, rest)
  {
    if bodies == [] {
      assert Args(bodies) + rest == rest;
    } else {
      Assoc(Arg(bodies[0]), Args(bodies[1..]), rest);
      ReadArgPut(bodies[0], Args(bodies[1..]) + rest);
      ArgsRoundTrip(bodies[1..], rest);
      ManyCons(ReadArg, |bodies| - 1, Args(bodies) + rest, bodies[1..], rest);
      assert bodies == [bodies[0]] + bodies[1..];
    }
  }

  lemma {:induction false} ArgsConcat(xs: seq<bytes>, ys: seq<bytes>)
    ensures Args(xs + ys) == Args(xs) + Args(ys)
  {
    if xs == [] {
      assert xs + ys == ys;
    } else {
      assert (xs + ys)[1..] == xs[1..] + ys;
      ArgsConcat(xs[1..], ys);
      Assoc(Arg(xs[0]), Args(xs[1..]), Args(ys));
    }
  }

  /** One more argument at the end of a request that starts with the function code fn. */
  lemma ArgsSnoc(fn: byte, buf: bytes, done: seq<bytes>, b: bytes)
    requires buf == [fn] + Args(done)
    ensures buf + Arg(b) == [fn] + Args(done + [b])
  {
    ArgsConcat(done, [b]);
    assert Args([b]) == Arg(b) + Args([]);
    Assoc([fn], Args(done), Arg(b));
  }

  /** A whole request: the function code, then arguments read back in order, leaving what follows them. */
  lemma RequestByArgs(fn: byte, req: bytes, args: seq<bytes>, rest: bytes)
    requires req == [fn] + Args(args) && forall i :: 0 <= i < |args| ==> |args[i]| < TWO_32
    ensures (req + rest)[0] == fn && Many(ReadArg, |args|, (req + rest)[1..]) == Got(args, rest)
  {
    ArgsRoundTrip(args, rest);
    Assoc([fn], Args(args), rest);
    assert ([fn] + (Args(args) + rest))[1..] == Args(args) + rest;
  }
}
