/** How the written length of an object depends on the values put into it, and of a token on its position. */
module PageSize {
  import opened Decimal
  import opened Json
  import opened Wrappers
  import opened Continuation
  import Base64Url
  import Utf8

  function Size(page: seq<Member>): nat {
    |Dumps(Obj(page))|
  }

  /** The same keys, with values that write no longer. */
  predicate Within(ms: seq<Member>, ns: seq<Member>) {
    |ms| == |ns| && forall i :: 0 <= i < |ms| ==> ms[i].key == ns[i].key && |Dumps(ms[i].value)| <= |Dumps(ns[i].value)|
  }

  lemma {:induction false} WithinSize(ms: seq<Member>, ns: seq<Member>)
    requires Within(ms, ns)
    ensures |DumpsMembers(ms)| <= |DumpsMembers(ns)|
  {
    if ms != [] { WithinSize(ms[1..], ns[1..]); }
  }

  lemma WithinCons(m: Member, ms: seq<Member>, n: Member, ns: seq<Member>)
    requires m.key == n.key && |Dumps(m.value)| <= |Dumps(n.value)| && Within(ms, ns)
    ensures Within([m] + ms, [n] + ns)
  {
    hide Dumps;
  }

  lemma WithinTail(ms: seq<Member>, ns: seq<Member>)
    requires Within(ms, ns) && ms != []
    ensures ms[0].key == ns[0].key && |Dumps(ms[0].value)| <= |Dumps(ns[0].value)| && Within(ms[1..], ns[1..])
  {
  }

  lemma {:induction false} PutWithin(ms: seq<Member>, ns: seq<Member>, key: string, v: Json, w: Json)
    requires Within(ms, ns) && |Dumps(v)| <= |Dumps(w)|
    ensures Within(Put(ms, key, v), Put(ns, key, w))
  {
    assert ms == [] ==> Within(Put(ms, key, v), Put(ns, key, w));
    hide Dumps, Less, Within;
    var m, n := Member(key, v), Member(key, w);
    if ms != [] {
      WithinTail(ms, ns);
      if ms[0].key == key {
        WithinCons(m, ms[1..], n, ns[1..]);
      } else if Less(key, ms[0].key) {
        WithinCons(m, ms, n, ns);
      } else {
        PutWithin(ms[1..], ns[1..], key, v, w);
        WithinCons(ms[0], Put(ms[1..], key, v), ns[0], Put(ns[1..], key, w));
      }
    }
  }

  lemma {:induction false} PutGrows(ms: seq<Member>, key: string, v: Json)
    requires !Has(ms, key)
    ensures |DumpsMembers(ms)| <= |DumpsMembers(Put(ms, key, v))|
  {
    if ms != [] {
      if Less(key, ms[0].key) {
        assert Put(ms, key, v)[1..] == ms;
      } else {
        PutGrows(ms[1..], key, v);
        assert Put(ms, key, v)[1..] == Put(ms[1..], key, v);
        assert Put(ms[1..], key, v) != [];
      }
    }
  }

  predicate IsPlain(s: string) {
    forall i :: 0 <= i < |s| ==> ' ' <= s[i] < 128 as char && s[i] != '"' && s[i] != '\\'
  }

  lemma {:induction false} EscapePlain(s: string)
    requires IsPlain(s)
    ensures Escape(s) == s
  {
    if s != [] { EscapePlain(s[1..]); }
  }

  /** Bytes of the UTF-8 form. */
  function Bytes(s: string): nat {
    |Utf8.Encode(s)|
  }

  lemma {:induction false} BytesOfMembers(ms: seq<Member>, ns: seq<Member>)
    requires |ms| == |ns|
    requires forall i :: 0 <= i < |ms| ==> ms[i].key == ns[i].key && Bytes(Dumps(ms[i].value)) <= Bytes(Dumps(ns[i].value))
    ensures Bytes(DumpsMembers(ms)) <= Bytes(DumpsMembers(ns))
  {
    if ms != [] {
      BytesOfMember(ms[0]);
      BytesOfMember(ns[0]);
      if |ms| > 1 {
        BytesOfMembers(ms[1..], ns[1..]);
        BytesOfThree(DumpsMember(ms[0]), ",", DumpsMembers(ms[1..]));
        BytesOfThree(DumpsMember(ns[0]), ",", DumpsMembers(ns[1..]));
      }
    }
  }

  lemma BytesOfThree(a: string, b: string, c: string)
    ensures Bytes(a + b + c) == Bytes(a) + Bytes(b) + Bytes(c)
  {
    Utf8.EncodeConcat(a + b, c);
    Utf8.EncodeConcat(a, b);
  }

  lemma BytesOfMember(m: Member)
    ensures Bytes(DumpsMember(m)) == Bytes(DumpsString(m.key)) + Bytes(":") + Bytes(Dumps(m.value))
  {
    BytesOfThree(DumpsString(m.key), ":", Dumps(m.value));
  }

  lemma BytesOfObject(ms: seq<Member>)
    ensures Bytes(Dumps(Obj(ms))) == Bytes("{") + Bytes(DumpsMembers(ms)) + Bytes("}")
  {
    BytesOfThree("{", DumpsMembers(ms), "}");
  }

  lemma BytesOfPlain(s: string)
    requires IsPlain(s)
    ensures Bytes(s) == |s| && Bytes(DumpsString(s)) == |s| + 2
  {
    EscapePlain(s);
    Utf8.EncodeAscii(s);
    Utf8.EncodeAscii("\"" + s + "\"");
  }

  lemma HexIsPlain(digest: string)
    requires digest == "" || IsItemDigest(digest)
    ensures IsPlain(digest)
  {
    if digest != "" {
      forall i | 0 <= i < |digest|
        ensures ' ' <= digest[i] < 128 as char && digest[i] != '"' && digest[i] != '\\'
      {
        if i < 7 { assert digest[i] == digest[..7][i]; } else { assert digest[i] == digest[7..][i - 7]; }
      }
    }
  }

  lemma BytesOfPosition(p: Position, p': Position)
    requires (p.digest == "" || IsItemDigest(p.digest)) && IsItemDigest(p'.digest)
    requires p.index <= p'.index && p.offset <= p'.offset
    ensures Bytes(Dumps(PositionValue(p))) <= Bytes(Dumps(PositionValue(p')))
  {
    hide Bytes, IsHex64, NatText, Escape;
    HexIsPlain(p.digest);
    HexIsPlain(p'.digest);
    LongerIsLarger(p.index, p'.index);
    LongerIsLarger(p.offset, p'.offset);
    BytesOfPlain(NatText(p.index));
    BytesOfPlain(NatText(p'.index));
    BytesOfPlain(NatText(p.offset));
    BytesOfPlain(NatText(p'.offset));
    BytesOfPlain(p.digest);
    BytesOfPlain(p'.digest);
    var ms, ms' := PositionValue(p).members, PositionValue(p').members;
    assert Dumps(ms[0].value) == NatText(p.offset) && Dumps(ms'[0].value) == NatText(p'.offset);
    assert Dumps(ms[1].value) == DumpsString(p.digest) && Dumps(ms'[1].value) == DumpsString(p'.digest);
    assert Dumps(ms[2].value) == NatText(p.index) && Dumps(ms'[2].value) == NatText(p'.index);
    BytesOfMembers(ms, ms');
    BytesOfObject(PositionValue(p).members);
    BytesOfObject(PositionValue(p').members);
  }

  /** A position with smaller numbers and no longer digest never has a longer token. */
  lemma TokenMonotone(c: Codec, p: Position, p': Position, ref: string, binding: seq<Member>)
    requires HexDigests(c.sha)
    requires (p.digest == "" || IsItemDigest(p.digest)) && IsItemDigest(p'.digest)
    requires p.index <= p'.index && p.offset <= p'.offset
    ensures |EncodeToken(c, p, ref, binding)| <= |EncodeToken(c, p', ref, binding)|
  {
    BytesOfPosition(p, p');
    var ms, ms' := TokenValue(c, p, ref, binding).members, TokenValue(c, p', ref, binding).members;
    BytesOfMembers(ms, ms');
    BytesOfObject(ms);
    BytesOfObject(ms');
    var body, body' := TokenBody(c, p, ref, binding), TokenBody(c, p', ref, binding);
    Base64Url.WriteShape(body);
    Base64Url.WriteShape(body');
    assert IsHex64(c.sha(body)) && IsHex64(c.sha(body'));
  }

  lemma TokenPlain(c: Codec, p: Position, ref: string, binding: seq<Member>)
    requires HexDigests(c.sha)
    ensures IsPlain(EncodeToken(c, p, ref, binding))
  {
    var body := TokenBody(c, p, ref, binding);
    Base64Url.WriteShape(body);
    assert IsHex64(c.sha(body));
  }
}
