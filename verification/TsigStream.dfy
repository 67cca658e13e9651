/**
 The TSIG signatures of a zone transfer: each message's MAC covers the MAC
 before it, and a verifier following section 5.3.1 of RFC 8945 accepts the whole
 stream.
 */
module TsigStream {
  import opened Names
  import opened Octets

  datatype Message = Message(id: nat, content: seq<Byte>)

  /** A TSIG record without its owner: the error is 0 and there is no other data. */
  datatype Tsig = Tsig(algorithm: Name, time: nat, fudge: nat, mac: seq<Byte>, originalId: nat)

  datatype Signed = Signed(message: Message, tsig: Option<Tsig>)

  /** HMAC and the encoders, left uninterpreted; encoding a message may fail. */
  datatype Primitives = Primitives(
    hmac: (Name, seq<Byte>, seq<Byte>) -> seq<Byte>,
    encodeName: Name -> seq<Byte>,
    encode: Message -> Option<seq<Byte>>)

  const FUDGE: nat := 300
  const CLASS_ANY: nat := 255

  predicate IsTime(t: nat) {
    t < 0x1_0000_0000_0000
  }

  // ---------- What a MAC covers ----------

  /** The MAC before, with its length. */
  function PriorMac(mac: seq<Byte>): (r: seq<Byte>)
    ensures |r| == 2 + |mac|
  {
    U16(|mac| % 0x1_0000) + mac
  }

  /** The full TSIG variables (section 4.3.3 of RFC 8945). */
  function Variables(p: Primitives, keyName: Name, t: Tsig): seq<Byte>
    requires IsTime(t.time) && Is16Bit(t.fudge)
  {
    p.encodeName(keyName) + U16(CLASS_ANY) + U32(0)
    + p.encodeName(t.algorithm) + U48(t.time) + U16(t.fudge) + U16(0) + U16(0)
  }

  /** The timers alone (section 5.3.1 of RFC 8945). */
  function Timers(t: Tsig): (r: seq<Byte>)
    requires IsTime(t.time) && Is16Bit(t.fudge)
    ensures |r| == 8
  {
    U48(t.time) + U16(t.fudge)
  }

  function Covered(p: Primitives, keyName: Name, prior: seq<Byte>, first: bool, encoded: seq<Byte>, t: Tsig): seq<Byte>
    requires IsTime(t.time) && Is16Bit(t.fudge)
  {
    PriorMac(prior) + encoded + if first then Variables(p, keyName, t) else Timers(t)
  }

  // ---------- The verifier ----------

  predicate WellTimed(s: Signed) {
    s.tsig.Some? && IsTime(s.tsig.value.time) && Is16Bit(s.tsig.value.fudge)
  }

  /** Message i of a stream verifies against the MAC of message i - 1, or of the request. */
  ghost predicate Verifies(p: Primitives, keyName: Name, key: seq<Byte>, requestMac: seq<Byte>,
                           stream: seq<Signed>, i: nat)
    requires i < |stream|
  {
    && WellTimed(stream[i])
    && (i > 0 ==> WellTimed(stream[i - 1]))
    && p.encode(stream[i].message).Some?
    && var t := stream[i].tsig.value;
    var prior := if i == 0 then requestMac else stream[i - 1].tsig.value.mac;
    t.mac == p.hmac(t.algorithm, key, Covered(p, keyName, prior, i == 0, p.encode(stream[i].message).value, t))
  }

  ghost predicate Accepts(p: Primitives, keyName: Name, key: seq<Byte>, requestMac: seq<Byte>, stream: seq<Signed>) {
    forall i :: 0 <= i < |stream| ==> Verifies(p, keyName, key, requestMac, stream, i)
  }

  // ---------- The signer ----------

  class TsigContext {
    const name: Name
    const algorithm: Name
    const key: seq<Byte>
    var hash: seq<Byte>
    var first: bool

    constructor (name: Name, algorithm: Name, key: seq<Byte>, requestMac: seq<Byte>)
      ensures this.name == name && this.algorithm == algorithm && this.key == key
      ensures hash == requestMac && first
    {
      this.name, this.algorithm, this.key, this.hash, this.first := name, algorithm, key, requestMac, true;
    }

    /** `sign_message`: sign, and remember the MAC for the next message. */
    method SignMessage(p: Primitives, m: Message, now: nat) returns (r: Option<Signed>)
      requires IsTime(now)
      modifies this
      ensures r.None? <==> p.encode(m).None?
      ensures r.None? ==> hash == old(hash) && first == old(first)
      ensures r.Some? ==>
                && r.value.message == m && WellTimed(r.value)
                && var t := r.value.tsig.value;
                t.algorithm == algorithm && t.time == now && t.fudge == FUDGE && t.originalId == m.id
                && t.mac == p.hmac(algorithm, key, Covered(p, name, old(hash), old(first), p.encode(m).value, t))
                && hash == t.mac && !first
    {
      var tsig := Tsig(algorithm, now, FUDGE, [], m.id);
      var tbs: seq<Byte> := U16(|hash| % 0x1_0000) + hash;
      var encoded := p.encode(m);
      if encoded.None? {
        return None;
      }
      tbs := tbs + encoded.value;
      if first {
        tbs := tbs + Variables(p, name, tsig);
      } else {
        U48Split(now);
        tbs := tbs + (U16(now / 0x1_0000_0000) + U32(now % 0x1_0000_0000) + U16(tsig.fudge));
      }
      var computed := p.hmac(algorithm, key, tbs);
      ghost var t := tsig.(mac := computed);
      assert Variables(p, name, t) == Variables(p, name, tsig) && Timers(t) == Timers(tsig);
      first := false;
      hash := computed;
      r := Some(Signed(m, Some(tsig.(mac := computed))));
    }
  }

  /** Signing the messages of a transfer in order: for every length the verifier accepts what was sent. */
  method SignTransfer(p: Primitives, name: Name, algorithm: Name, key: seq<Byte>, requestMac: seq<Byte>,
                      messages: seq<Message>, clock: seq<nat>) returns (sent: seq<Signed>, ok: bool)
    requires |clock| == |messages| && forall i :: 0 <= i < |clock| ==> IsTime(clock[i])
    ensures Accepts(p, name, key, requestMac, sent)
    ensures |sent| <= |messages| && forall i :: 0 <= i < |sent| ==> sent[i].message == messages[i]
    ensures ok <==> forall i :: 0 <= i < |messages| ==> p.encode(messages[i]).Some?
    ensures ok ==> |sent| == |messages|
  {
    var context := new TsigContext(name, algorithm, key, requestMac);
    sent := [];
    for i := 0 to |messages|
      invariant |sent| == i && forall j :: 0 <= j < i ==> sent[j].message == messages[j]
      invariant forall j :: 0 <= j < i ==> p.encode(messages[j]).Some?
      invariant context.name == name && context.algorithm == algorithm && context.key == key
      invariant context.first == (i == 0)
      invariant i == 0 ==> context.hash == requestMac
      invariant i > 0 ==> WellTimed(sent[i - 1]) && context.hash == sent[i - 1].tsig.value.mac
      invariant Accepts(p, name, key, requestMac, sent)
    {
      ghost var before := sent;
      var signed := context.SignMessage(p, messages[i], clock[i]);
      if signed.None? {
        return sent, false;
      }
      sent := sent + [signed.value];
      AcceptsSnoc(p, name, key, requestMac, before, signed.value);
    }
    ok := true;
  }

  lemma AcceptsSnoc(p: Primitives, keyName: Name, key: seq<Byte>, requestMac: seq<Byte>, stream: seq<Signed>, s: Signed)
    requires Accepts(p, keyName, key, requestMac, stream)
    requires Verifies(p, keyName, key, requestMac, stream + [s], |stream|)
    ensures Accepts(p, keyName, key, requestMac, stream + [s])
  {
    var all := stream + [s];
    forall i | 0 <= i < |all|
      ensures Verifies(p, keyName, key, requestMac, all, i)
    {
      if i < |stream| {
        assert Verifies(p, keyName, key, requestMac, stream, i);
      }
    }
  }

  // ---------- The bytes of a MAC ----------

  /** The signing time in 48 bits and the fudge in 16, most significant byte first. */
  function TimerBytes(t: Tsig): seq<Byte>
    requires IsTime(t.time) && Is16Bit(t.fudge)
  {
    [t.time / 0x100_0000_0000, t.time / 0x1_0000_0000 % 256, t.time / 0x100_0000 % 256,
     t.time / 0x1_0000 % 256, t.time / 0x100 % 256, t.time % 256, t.fudge / 256, t.fudge % 256]
  }

  lemma TimersAreBytes(t: Tsig)
    requires IsTime(t.time) && Is16Bit(t.fudge)
    ensures Timers(t) == TimerBytes(t)
  {
    U16Bytes(t.fudge);
    U48Bytes(t.time);
  }

  /**
   What a MAC in an accepted stream was computed over: the length of the MAC
   before and that MAC, the message, and then, in the first message, the key's
   name, class ANY, a TTL of zero, the algorithm, the timers, no error and no
   other data; in a later one the timers alone.
   */
  lemma MacBytes(p: Primitives, keyName: Name, key: seq<Byte>, requestMac: seq<Byte>, stream: seq<Signed>, i: nat)
    requires i < |stream| && Verifies(p, keyName, key, requestMac, stream, i)
    ensures var t, prior := stream[i].tsig.value, if i == 0 then requestMac else stream[i - 1].tsig.value.mac;
            var length := |prior| % 0x1_0000;
            var head := [length / 256, length % 256] + prior + p.encode(stream[i].message).value;
            t.mac == p.hmac(t.algorithm, key,
                            if i > 0 then head + TimerBytes(t)
                            else head + p.encodeName(keyName) + [0, 255, 0, 0, 0, 0] + p.encodeName(t.algorithm)
                                 + TimerBytes(t) + [0, 0, 0, 0])
  {
    var t, prior := stream[i].tsig.value, if i == 0 then requestMac else stream[i - 1].tsig.value.mac;
    TimersAreBytes(t);
    U16Bytes(|prior| % 0x1_0000);
    if i == 0 {
      var encoded := p.encode(stream[0].message).value;
      VariableBytes(p, keyName, t);
      FirstRegroup(PriorMac(prior) + encoded, p.encodeName(keyName), [0, 255, 0, 0, 0, 0], p.encodeName(t.algorithm),
                   TimerBytes(t), [0, 0, 0, 0]);
    }
  }

  lemma VariableBytes(p: Primitives, keyName: Name, t: Tsig)
    requires IsTime(t.time) && Is16Bit(t.fudge)
    ensures Variables(p, keyName, t) == p.encodeName(keyName) + [0, 255, 0, 0, 0, 0] + p.encodeName(t.algorithm)
                                        + TimerBytes(t) + [0, 0, 0, 0]
  {
    TimersAreBytes(t);
    assert U16(CLASS_ANY) + U32(0) == [0, 255, 0, 0, 0, 0] && U16(0) + U16(0) == [0, 0, 0, 0];
    var a, b := p.encodeName(keyName), p.encodeName(t.algorithm);
    assert a + U16(CLASS_ANY) + U32(0) == a + (U16(CLASS_ANY) + U32(0));
    var head := a + [0, 255, 0, 0, 0, 0] + b;
    assert head + U48(t.time) + U16(t.fudge) + U16(0) + U16(0)
        == head + (U48(t.time) + U16(t.fudge)) + (U16(0) + U16(0));
  }

  lemma FirstRegroup(head: seq<Byte>, a: seq<Byte>, b: seq<Byte>, c: seq<Byte>, d: seq<Byte>, e: seq<Byte>)
    ensures head + (a + b + c + d + e) == head + a + b + c + d + e
  {
  }

  // ---------- What the last MAC binds ----------

  lemma SplitEqual(a: seq<Byte>, b: seq<Byte>, c: seq<Byte>, d: seq<Byte>)
    requires a + b == c + d && |a| == |c|
    ensures a == c && b == d
  {
    assert a == (a + b)[..|a|] && c == (c + d)[..|a|];
    assert b == (a + b)[|a|..] && d == (c + d)[|a|..];
  }

  lemma Regroup(prior: seq<Byte>, x: seq<Byte>, tail: seq<Byte>)
    requires |prior| < 0x1_0000
    ensures PriorMac(prior) + x + tail == U16(|prior|) + (prior + (x + tail))
  {
    Associates(PriorMac(prior), x, tail);
    Associates(U16(|prior|), prior, x + tail);
  }

  lemma Associates(a: seq<Byte>, b: seq<Byte>, c: seq<Byte>)
    ensures a + b + c == a + (b + c)
  {
  }

  lemma CoveredInjective(prior: seq<Byte>, prior': seq<Byte>, x: seq<Byte>, x': seq<Byte>,
                         tail: seq<Byte>, tail': seq<Byte>)
    requires |prior| < 0x1_0000 && |prior'| < 0x1_0000 && |tail| == |tail'|
    requires PriorMac(prior) + x + tail == PriorMac(prior') + x' + tail'
    ensures prior == prior' && x == x' && tail == tail'
  {
    var y, y' := x + tail, x' + tail';
    Regroup(prior, x, tail);
    Regroup(prior', x', tail');
    SplitEqual(U16(|prior|), prior + y, U16(|prior'|), prior' + y');
    U16Injective(|prior|, |prior'|);
    SplitEqual(prior, y, prior', y');
    SplitEqual(x, tail, x', tail');
  }

  /** MACs fit the 16-bit length field that precedes them. */
  ghost predicate ShortMacs(stream: seq<Signed>) {
    forall i :: 0 <= i < |stream| && stream[i].tsig.Some? ==> |stream[i].tsig.value.mac| < 0x1_0000
  }

  /** What the MAC of message i was computed over. */
  ghost function InputAt(p: Primitives, keyName: Name, requestMac: seq<Byte>, stream: seq<Signed>, i: nat): seq<Byte>
    requires i < |stream| && WellTimed(stream[i]) && (i > 0 ==> WellTimed(stream[i - 1]))
    requires p.encode(stream[i].message).Some?
  {
    var prior := if i == 0 then requestMac else stream[i - 1].tsig.value.mac;
    Covered(p, keyName, prior, i == 0, p.encode(stream[i].message).value, stream[i].tsig.value)
  }

  /** The streams show a collision of the HMAC at message i: one MAC for two algorithms or inputs. */
  ghost predicate Collides(p: Primitives, keyName: Name, key: seq<Byte>, requestMac: seq<Byte>,
                           s: seq<Signed>, t: seq<Signed>, i: nat)
  {
    && i < |s| && i < |t|
    && Verifies(p, keyName, key, requestMac, s, i) && Verifies(p, keyName, key, requestMac, t, i)
    && var a, b := s[i].tsig.value.algorithm, t[i].tsig.value.algorithm;
    var x, y := InputAt(p, keyName, requestMac, s, i), InputAt(p, keyName, requestMac, t, i);
    (a != b || x != y) && p.hmac(a, key, x) == p.hmac(b, key, y)
  }

  predicate SameMac(s: seq<Signed>, t: seq<Signed>, i: nat) {
    && i < |s| && i < |t| && s[i].tsig.Some? && t[i].tsig.Some?
    && s[i].tsig.value.mac == t[i].tsig.value.mac
  }

  /** Message i is the same in both streams, in content and in the time it was signed. */
  predicate SameAt(p: Primitives, s: seq<Signed>, t: seq<Signed>, i: nat) {
    && i < |s| && i < |t| && s[i].tsig.Some? && t[i].tsig.Some?
    && p.encode(s[i].message) == p.encode(t[i].message) && s[i].tsig.value.time == t[i].tsig.value.time
  }

  lemma U16Injective(m: int, n: int)
    requires Is16Bit(m) && Is16Bit(n) && U16(m) == U16(n)
    ensures m == n
  {
    ReadU16Inverts(m, []);
    ReadU16Inverts(n, []);
  }

  lemma Words(n: int)
    requires 0 <= n < 0x1_0000_0000_0000
    ensures n == n / 0x1_0000_0000 * 0x1_0000_0000 + n / 0x1_0000 % 0x1_0000 * 0x1_0000 + n % 0x1_0000
  {
    var high := n / 0x1_0000;
    assert n == high * 0x1_0000 + n % 0x1_0000;
    assert high == high / 0x1_0000 * 0x1_0000 + high % 0x1_0000;
    assert n / 0x1_0000_0000 == high / 0x1_0000;
  }

  lemma U48Injective(m: int, n: int)
    requires 0 <= m < 0x1_0000_0000_0000 && 0 <= n < 0x1_0000_0000_0000 && U48(m) == U48(n)
    ensures m == n
  {
    var a, b, c := m / 0x1_0000_0000, m / 0x1_0000 % 0x1_0000, m % 0x1_0000;
    var x, y, z := n / 0x1_0000_0000, n / 0x1_0000 % 0x1_0000, n % 0x1_0000;
    SplitEqual(U16(a) + U16(b), U16(c), U16(x) + U16(y), U16(z));
    SplitEqual(U16(a), U16(b), U16(x), U16(y));
    U16Injective(a, x);
    U16Injective(b, y);
    U16Injective(c, z);
    Words(m);
    Words(n);
  }

  /** The full variables hold the time, after a part that is the same for both. */
  lemma VariablesTime(p: Primitives, keyName: Name, x: Tsig, y: Tsig)
    requires IsTime(x.time) && Is16Bit(x.fudge) && IsTime(y.time) && Is16Bit(y.fudge)
    requires x.algorithm == y.algorithm && Variables(p, keyName, x) == Variables(p, keyName, y)
    ensures x.time == y.time
  {
    var head := p.encodeName(keyName) + U16(CLASS_ANY) + U32(0) + p.encodeName(x.algorithm);
    var xs, ys := U16(x.fudge) + U16(0) + U16(0), U16(y.fudge) + U16(0) + U16(0);
    assert Variables(p, keyName, x) == head + (U48(x.time) + xs);
    assert Variables(p, keyName, y) == head + (U48(y.time) + ys);
    SplitEqual(head, U48(x.time) + xs, head, U48(y.time) + ys);
    SplitEqual(U48(x.time), xs, U48(y.time), ys);
    U48Injective(x.time, y.time);
  }

  lemma TimersTime(x: Tsig, y: Tsig)
    requires IsTime(x.time) && Is16Bit(x.fudge) && IsTime(y.time) && Is16Bit(y.fudge) && Timers(x) == Timers(y)
    ensures x.time == y.time
  {
    SplitEqual(U48(x.time), U16(x.fudge), U48(y.time), U16(y.fudge));
    U48Injective(x.time, y.time);
  }

  /** Two messages with one MAC are the same and follow the same MAC, or show a collision. */
  lemma OneMacBinds(p: Primitives, keyName: Name, key: seq<Byte>, requestMac: seq<Byte>,
                    s: seq<Signed>, t: seq<Signed>, i: nat)
    requires |requestMac| < 0x1_0000 && ShortMacs(s) && ShortMacs(t) && SameMac(s, t, i)
    requires Verifies(p, keyName, key, requestMac, s, i) && Verifies(p, keyName, key, requestMac, t, i)
    requires !Collides(p, keyName, key, requestMac, s, t, i)
    ensures SameAt(p, s, t, i) && (i > 0 ==> SameMac(s, t, i - 1))
  {
    var x, y := s[i].tsig.value, t[i].tsig.value;
    var prior := if i == 0 then requestMac else s[i - 1].tsig.value.mac;
    var prior' := if i == 0 then requestMac else t[i - 1].tsig.value.mac;
    var tail := if i == 0 then Variables(p, keyName, x) else Timers(x);
    var tail' := if i == 0 then Variables(p, keyName, y) else Timers(y);
    CoveredInjective(prior, prior', p.encode(s[i].message).value, p.encode(t[i].message).value, tail, tail');
    if i == 0 {
      VariablesTime(p, keyName, x, y);
    } else {
      TimersTime(x, y);
    }
  }

  /**
   The MAC of message n in an accepted transfer determines every message up to
   it: two accepted transfers with the same nth MAC agree on all of them, in
   content and signing time, unless they show a collision of the HMAC.
   */
  lemma {:induction false} LastMacBindsAll(p: Primitives, keyName: Name, key: seq<Byte>, requestMac: seq<Byte>,
                                           s: seq<Signed>, t: seq<Signed>, n: nat)
    requires |requestMac| < 0x1_0000 && ShortMacs(s) && ShortMacs(t) && SameMac(s, t, n)
    requires Accepts(p, keyName, key, requestMac, s) && Accepts(p, keyName, key, requestMac, t)
    ensures || (exists i :: 0 <= i <= n && Collides(p, keyName, key, requestMac, s, t, i))
            || (forall i :: 0 <= i <= n ==> SameAt(p, s, t, i))
  {
    assert Verifies(p, keyName, key, requestMac, s, n) && Verifies(p, keyName, key, requestMac, t, n);
    if !Collides(p, keyName, key, requestMac, s, t, n) {
      OneMacBinds(p, keyName, key, requestMac, s, t, n);
      if n > 0 {
        LastMacBindsAll(p, keyName, key, requestMac, s, t, n - 1);
      }
    }
  }
}
