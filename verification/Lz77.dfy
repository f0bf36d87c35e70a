/** Literal and match tokens, and the simple expander that replays them. */
module Lz77 {
  import opened Bits

  datatype Token = Literal(c: byte) | Match(len: nat, dist: nat)

  /** How many bytes a token stands for. */
  function TokenLength(t: Token): nat { if t.Literal? then 1 else t.len }

  /** Appends `len` bytes, each copied from `dist` bytes back; the copy may overlap itself. */
  function CopyFrom(out: seq<byte>, dist: nat, len: nat): (r: seq<byte>)
    requires 1 <= dist <= |out|
    ensures |r| == |out| + len && out <= r
    decreases len
  {
    if len == 0 then out else CopyFrom(out + [out[|out| - dist]], dist, len - 1)
  }

  /** Replays tokens after the bytes in `out`; fails on a distance that reaches before the start. */
  function Expand(out: seq<byte>, ts: seq<Token>): Option<seq<byte>>
    decreases |ts|
  {
    if ts == [] then Some(out)
    else
      match ts[0]
      case Literal(c) => Expand(out + [c], ts[1..])
      case Match(len, dist) => if 1 <= dist <= |out| then Expand(CopyFrom(out, dist, len), ts[1..]) else None
  }

  lemma {:induction false} ExpandConcat(out: seq<byte>, s: seq<Token>, t: seq<Token>)
    ensures Expand(out, s + t) == if Expand(out, s).Some? then Expand(Expand(out, s).value, t) else None
    decreases |s|
  {
    if s == [] {
      assert s + t == t;
    } else {
      assert (s + t)[0] == s[0] && (s + t)[1..] == s[1..] + t;
      match s[0]
      case Literal(c) => ExpandConcat(out + [c], s[1..], t);
      case Match(len, dist) => if 1 <= dist <= |out| { ExpandConcat(CopyFrom(out, dist, len), s[1..], t); }
    }
  }

  lemma ExpandSnoc(out: seq<byte>, s: seq<Token>, t: Token, mid: seq<byte>)
    requires Expand(out, s) == Some(mid)
    ensures t.Literal? ==> Expand(out, s + [t]) == Some(mid + [t.c])
    ensures t.Match? && 1 <= t.dist <= |mid| ==> Expand(out, s + [t]) == Some(CopyFrom(mid, t.dist, t.len))
  {
    ExpandConcat(out, s, [t]);
    assert [t][1..] == [];
  }

  /** A copy of bytes that already repeat with period `dist` extends the data. */
  lemma {:induction false} CopyMatches(data: seq<byte>, n: nat, dist: nat, len: nat)
    requires 1 <= dist <= n && n + len <= |data|
    requires forall i :: n <= i < n + len ==> data[i] == data[i - dist]
    ensures CopyFrom(data[..n], dist, len) == data[..n + len]
    decreases len
  {
    if len > 0 {
      assert data[..n] + [data[..n][n - dist]] == data[..n + 1];
      CopyMatches(data, n + 1, dist, len - 1);
    }
  }
}
