/** The canonical envelope bytes of security.py: stripped fields, sorted keys, compact separators. */
module Envelope {
  import opened Words
  import opened JsonString

  /** The string-valued keys in the order `sort_keys` puts them; "timestamp" sorts after them. */
  const KEYS: seq<string> := ["asset_type", "client_pubkey", "content_type", "nonce",
                              "payload_hash", "protocol_version", "subscription_topic"]

  /** `"key":"value",` and what follows. */
  function Member(key: string, value: Text, more: Bytes): Bytes {
    Chars("\"") + (Escape(Chars(key)) + (Chars("\":\"") + (Escape(value) + (Chars("\",") + more))))
  }

  /** The members from number i on and what follows them. */
  function Members(keys: seq<string>, values: seq<Text>, i: nat, rest: Bytes): Bytes
    requires i <= |keys| == |values|
    decreases |keys| - i
  {
    if i == |keys| then rest else Member(keys[i], values[i], Members(keys, values, i + 1, rest))
  }

  datatype Envelope<F> = Envelope(
    protocolVersion: Text, clientPubkey: Text, nonce: Text, timestamp: F, assetType: Text,
    payloadHash: Text, contentType: Text, subscriptionTopic: Text)

  function Stripped<F>(e: Envelope<F>): (r: seq<Text>)
    ensures |r| == |KEYS|
  {
    [Strip(e.assetType), Strip(e.clientPubkey), Strip(e.contentType), Strip(e.nonce),
     Strip(e.payloadHash), Strip(e.protocolVersion), Strip(e.subscriptionTopic)]
  }

  /** The last member, whose value is a number. */
  function Last(key: string, digits: Bytes): Bytes {
    Chars("\"") + (Escape(Chars(key)) + (Chars("\":") + (digits + Chars("}"))))
  }

  function Object(keys: seq<string>, values: seq<Text>, rest: Bytes): Bytes
    requires |keys| == |values|
  {
    Chars("{") + Members(keys, values, 0, rest)
  }

  /** `build_canonical_envelope_bytes`; `repr` writes the timestamp as json.dumps does. */
  function Build<F>(repr: F -> Bytes, e: Envelope<F>): Bytes {
    Object(KEYS, Stripped(e), Last("timestamp", repr(e.timestamp)))
  }

  // ----- the bytes, written out -----

  predicate PlainKey(key: string) {
    forall i :: 0 <= i < |key| ==> ' ' <= key[i] <= '~' && key[i] != '\"' && key[i] != '\\'
  }

  lemma KeyIsPlain(key: string)
    requires PlainKey(key)
    ensures Escape(Chars(key)) == Chars(key) == Join(Chars(key))
  {
    EscapePlain(Chars(key));
  }

  /** A member as it stands in the bytes: the name and the separators are not escaped. */
  lemma MemberText(key: string, value: Text, more: Bytes)
    requires PlainKey(key)
    ensures Member(key, value, more) == Chars("\"" + key + "\":\"") + (Escape(value) + (Chars("\",") + more))
  {
    KeyIsPlain(key);
    KeyText(key, "\":\"", Escape(value) + (Chars("\",") + more));
  }

  lemma LastText(key: string, digits: Bytes)
    requires PlainKey(key)
    ensures Last(key, digits) == Chars("\"" + key + "\":") + (digits + Chars("}"))
  {
    KeyIsPlain(key);
    KeyText(key, "\":", digits + Chars("}"));
  }

  lemma KeyText(key: string, close: string, more: Bytes)
    ensures Chars("\"") + (Chars(key) + (Chars(close) + more)) == Chars("\"" + key + close) + more
  {
    CharsOfTwo("\"", key, Chars(close) + more);
    CharsOfTwo("\"" + key, close, more);
  }

  /** The object, name by name: which field stands under which name, and in what order. */
  lemma CanonicalMembers<F>(repr: F -> Bytes, e: Envelope<F>)
    ensures Build(repr, e) == Chars("{") +
      Member("asset_type", Strip(e.assetType),
      Member("client_pubkey", Strip(e.clientPubkey),
      Member("content_type", Strip(e.contentType),
      Member("nonce", Strip(e.nonce),
      Member("payload_hash", Strip(e.payloadHash),
      Member("protocol_version", Strip(e.protocolVersion),
      Member("subscription_topic", Strip(e.subscriptionTopic), Last("timestamp", repr(e.timestamp)))))))))
  {
    var v, rest := Stripped(e), Last("timestamp", repr(e.timestamp));
    var m7 := Members(KEYS, v, |KEYS|, rest);
    var m6 := Member(KEYS[6], v[6], m7);
    assert Members(KEYS, v, 6, rest) == m6;
    var m5 := Member(KEYS[5], v[5], m6);
    assert Members(KEYS, v, 5, rest) == m5;
    var m4 := Member(KEYS[4], v[4], m5);
    assert Members(KEYS, v, 4, rest) == m4;
    var m3 := Member(KEYS[3], v[3], m4);
    assert Members(KEYS, v, 3, rest) == m3;
    var m2 := Member(KEYS[2], v[2], m3);
    assert Members(KEYS, v, 2, rest) == m2;
  }

  /** a comes before b when strings are compared code point by code point. */
  ghost predicate Before(a: string, b: string) {
    exists k: nat :: k < |a| && k < |b| && a[..k] == b[..k] && a[k] < b[k]
  }

  /** The names are strictly ascending, so `sort_keys` leaves them as they are. */
  lemma NamesAscend(i: nat)
    requires i < |KEYS|
    ensures Before(KEYS[i], if i + 1 < |KEYS| then KEYS[i + 1] else "timestamp")
  {
    var next := if i + 1 < |KEYS| then KEYS[i + 1] else "timestamp";
    var k := if KEYS[i][0] == next[0] then 1 else 0;
    assert KEYS[i][..k] == next[..k] && KEYS[i][k] < next[k];
  }

  // ----- an independent reader of the object -----

  /** Name, value and rest of the string-valued member at the front of b. */
  function ReadMember(b: Bytes): (r: Option<(Text, Text, Bytes)>)
    ensures r.Some? ==> |r.value.2| < |b|
  {
    if !([QUOTE] <= b) then None else
    match ReadString(b[1..])
    case None => None
    case Some((key, after)) =>
      if !([0x3A, QUOTE] <= after) then None else
      match ReadString(after[2..])
      case None => None
      case Some((value, more)) => if [0x2C] <= more then Some((key, value, more[1..])) else None
  }

  /** The value under a name, the members being read one after the other. */
  function Lookup(b: Bytes, name: Text): Option<Text>
    decreases |b|
  {
    match ReadMember(b)
    case None => None
    case Some((key, value, more)) => if key == name then Some(value) else Lookup(more, name)
  }

  lemma ReadParts(key: Text, value: Text, k: Bytes, v: Bytes, more: Bytes)
    requires ReadString(v) == Some((value, [0x2C] + more)) && ReadString(k) == Some((key, [0x3A, QUOTE] + v))
    ensures ReadMember([QUOTE] + k) == Some((key, value, more))
  {
    assert ([QUOTE] + k)[1..] == k && ([0x3A, QUOTE] + v)[2..] == v && ([0x2C] + more)[1..] == more;
  }

  lemma Spelled(b: Bytes)
    ensures Chars("\"") == [QUOTE] && Chars("\",") + b == [QUOTE] + ([0x2C] + b)
    ensures Chars("\":\"") + b == [QUOTE] + ([0x3A, QUOTE] + b)
  {
  }

  lemma ReadMemberBack(key: string, value: Text, more: Bytes)
    requires PlainKey(key)
    ensures ReadMember(Member(key, value, more)) == Some((Chars(key), Join(value), more))
  {
    KeyIsPlain(key);
    Spelled(more);
    ReadEscape(value, [0x2C] + more);
    var v := Escape(value) + ([QUOTE] + ([0x2C] + more));
    Spelled(v);
    ReadEscape(Chars(key), [0x3A, QUOTE] + v);
    ReadParts(Chars(key), Join(value), Escape(Chars(key)) + ([QUOTE] + ([0x3A, QUOTE] + v)), v, more);
  }

  lemma {:induction false} LookupMembers(keys: seq<string>, values: seq<Text>, i: nat, rest: Bytes, j: nat)
    requires i <= j < |keys| == |values| && forall k :: 0 <= k < |keys| ==> PlainKey(keys[k])
    requires forall k :: i <= k < j ==> Chars(keys[k]) != Chars(keys[j])
    ensures Lookup(Members(keys, values, i, rest), Chars(keys[j])) == Some(Join(values[j]))
    decreases j - i
  {
    ReadMemberBack(keys[i], values[i], Members(keys, values, i + 1, rest));
    if i != j {
      LookupMembers(keys, values, i + 1, rest, j);
    }
  }

  ghost predicate DistinctKeys(keys: seq<string>) {
    && (forall k :: 0 <= k < |keys| ==> PlainKey(keys[k]))
    && (forall i, j :: 0 <= i < j < |keys| ==> keys[i] != keys[j])
  }

  lemma SomeKeysDiffer()
    ensures |KEYS[0]| == 10 && |KEYS[1]| == 13 && |KEYS[2]| == 12 && |KEYS[3]| == 5
    ensures |KEYS[4]| == 12 && |KEYS[5]| == 16 && |KEYS[6]| == 18
    ensures KEYS[2][0] != KEYS[4][0]
  {
  }

  lemma KeysDistinct()
    ensures DistinctKeys(KEYS)
  {
    var keys := KEYS;
    SomeKeysDiffer();
    forall i, j | 0 <= i < j < |keys| ensures keys[i] != keys[j] {
      if i == 2 && j == 4 {
        assert keys[i][0] != keys[j][0];
      } else {
        assert |keys[i]| != |keys[j]|;
      }
    }
    forall k | 0 <= k < |keys| ensures PlainKey(keys[k]) {
      KeyPlain(k);
    }
  }

  lemma KeyPlain(k: nat)
    requires k < |KEYS|
    ensures PlainKey(KEYS[k])
  {
  }

  lemma CharsDiffer(a: string, b: string)
    requires a != b
    ensures Chars(a) != Chars(b)
  {
    if |a| == |b| {
      var k :| 0 <= k < |a| && a[k] != b[k];
      assert Chars(a)[k] != Chars(b)[k];
    }
  }

  lemma ObjectReadsBack(keys: seq<string>, values: seq<Text>, rest: Bytes, j: nat)
    requires j < |keys| == |values| && DistinctKeys(keys)
    ensures Lookup(Object(keys, values, rest)[1..], Chars(keys[j])) == Some(Join(values[j]))
  {
    forall i | 0 <= i < j ensures Chars(keys[i]) != Chars(keys[j]) {
      CharsDiffer(keys[i], keys[j]);
    }
    LookupMembers(keys, values, 0, rest, j);
    assert Object(keys, values, rest)[1..] == Members(keys, values, 0, rest);
  }

  /** What an independent reader finds in the canonical bytes under each name. */
  ghost predicate ReadsAs<F>(b: Bytes, e: Envelope<F>) {
    && Lookup(b, Chars("asset_type")) == Some(Join(Strip(e.assetType)))
    && Lookup(b, Chars("client_pubkey")) == Some(Join(Strip(e.clientPubkey)))
    && Lookup(b, Chars("content_type")) == Some(Join(Strip(e.contentType)))
    && Lookup(b, Chars("nonce")) == Some(Join(Strip(e.nonce)))
    && Lookup(b, Chars("payload_hash")) == Some(Join(Strip(e.payloadHash)))
    && Lookup(b, Chars("protocol_version")) == Some(Join(Strip(e.protocolVersion)))
    && Lookup(b, Chars("subscription_topic")) == Some(Join(Strip(e.subscriptionTopic)))
  }

  lemma BuildReadsBack<F>(repr: F -> Bytes, e: Envelope<F>)
    ensures ReadsAs(Build(repr, e)[1..], e)
  {
    KeysDistinct();
    var keys, v, rest := KEYS, Stripped(e), Last("timestamp", repr(e.timestamp));
    ObjectReadsBack(keys, v, rest, 0);
    ObjectReadsBack(keys, v, rest, 1);
    ObjectReadsBack(keys, v, rest, 2);
    ObjectReadsBack(keys, v, rest, 3);
    ObjectReadsBack(keys, v, rest, 4);
    ObjectReadsBack(keys, v, rest, 5);
    ObjectReadsBack(keys, v, rest, 6);
  }

  // ----- what the bytes bind -----

  /** Stripped, and with surrogate pairs joined. */
  function Normal(s: Text): Text {
    Join(Strip(s))
  }

  ghost predicate SameEnvelope<F>(d: Envelope<F>, e: Envelope<F>) {
    && Normal(d.protocolVersion) == Normal(e.protocolVersion) && Normal(d.clientPubkey) == Normal(e.clientPubkey)
    && Normal(d.nonce) == Normal(e.nonce) && Normal(d.assetType) == Normal(e.assetType)
    && Normal(d.payloadHash) == Normal(e.payloadHash) && Normal(d.contentType) == Normal(e.contentType)
    && Normal(d.subscriptionTopic) == Normal(e.subscriptionTopic) && d.timestamp == e.timestamp
  }

  lemma MemberAgrees(key: string, u: Text, v: Text, more: Bytes)
    requires Join(u) == Join(v)
    ensures Member(key, u, more) == Member(key, v, more)
  {
    EscapeExact(u, v);
  }

  ghost predicate Agree(keys: seq<string>, u: seq<Text>, v: seq<Text>, i: nat, rest: Bytes)
    requires i <= |keys| == |u| == |v|
  {
    Members(keys, u, i, rest) == Members(keys, v, i, rest)
  }

  lemma AgreeOnce(keys: seq<string>, u: seq<Text>, v: seq<Text>, i: nat, rest: Bytes)
    requires i <= |keys| == |u| == |v|
    requires i < |keys| ==> Join(u[i]) == Join(v[i]) && Agree(keys, u, v, i + 1, rest)
    ensures Agree(keys, u, v, i, rest)
  {
    if i < |keys| {
      MemberAgrees(keys[i], u[i], v[i], Members(keys, u, i + 1, rest));
    }
  }

  lemma {:induction false} MembersAgree(keys: seq<string>, u: seq<Text>, v: seq<Text>, i: nat, rest: Bytes)
    requires i <= |keys| == |u| == |v| && forall k :: i <= k < |keys| ==> Join(u[k]) == Join(v[k])
    ensures Agree(keys, u, v, i, rest)
    decreases |keys| - i
  {
    if i < |keys| {
      MembersAgree(keys, u, v, i + 1, rest);
    }
    AgreeOnce(keys, u, v, i, rest);
  }

  lemma MemberThen(key: string, value: Text, more: Bytes, rest: Bytes)
    ensures Member(key, value, more + rest) == Member(key, value, more) + rest
  {
    var k, v := Escape(Chars(key)), Escape(value);
    Regroup(Chars("\","), more, rest);
    Regroup(v, Chars("\",") + more, rest);
    Regroup(Chars("\":\""), v + (Chars("\",") + more), rest);
    Regroup(k, Chars("\":\"") + (v + (Chars("\",") + more)), rest);
    Regroup(Chars("\""), k + (Chars("\":\"") + (v + (Chars("\",") + more))), rest);
  }

  /** The members are a text of their own before whatever follows. */
  ghost predicate Separate(keys: seq<string>, values: seq<Text>, i: nat, rest: Bytes)
    requires i <= |keys| == |values|
  {
    Members(keys, values, i, rest) == Members(keys, values, i, []) + rest
  }

  lemma SeparateOnce(keys: seq<string>, values: seq<Text>, i: nat, rest: Bytes)
    requires i <= |keys| == |values| && (i < |keys| ==> Separate(keys, values, i + 1, rest))
    ensures Separate(keys, values, i, rest)
  {
    if i < |keys| {
      MemberThen(keys[i], values[i], Members(keys, values, i + 1, []), rest);
    }
  }

  lemma {:induction false} MembersSeparate(keys: seq<string>, values: seq<Text>, i: nat, rest: Bytes)
    requires i <= |keys| == |values|
    ensures Separate(keys, values, i, rest)
    decreases |keys| - i
  {
    if i < |keys| {
      MembersSeparate(keys, values, i + 1, rest);
    }
    SeparateOnce(keys, values, i, rest);
  }

  lemma SuffixCancel(head: Bytes, a: Bytes, b: Bytes)
    requires head + a == head + b
    ensures a == b
  {
    assert (head + a)[|head|..] == a && (head + b)[|head|..] == b;
  }

  lemma LastExact(key: string, a: Bytes, b: Bytes)
    requires Last(key, a) == Last(key, b)
    ensures a == b
  {
    SuffixCancel(Chars("\""), Escape(Chars(key)) + (Chars("\":") + (a + Chars("}"))),
                 Escape(Chars(key)) + (Chars("\":") + (b + Chars("}"))));
    SuffixCancel(Escape(Chars(key)), Chars("\":") + (a + Chars("}")), Chars("\":") + (b + Chars("}")));
    SuffixCancel(Chars("\":"), a + Chars("}"), b + Chars("}"));
    assert (a + Chars("}"))[..|a|] == a && (b + Chars("}"))[..|b|] == b;
  }

  lemma ObjectExact(keys: seq<string>, u: seq<Text>, v: seq<Text>, key: string, a: Bytes, b: Bytes)
    requires |keys| == |u| == |v| && DistinctKeys(keys)
    ensures Object(keys, u, Last(key, a)) == Object(keys, v, Last(key, b)) <==>
      (forall j :: 0 <= j < |keys| ==> Join(u[j]) == Join(v[j])) && a == b
  {
    if forall j :: 0 <= j < |keys| ==> Join(u[j]) == Join(v[j]) {
      MembersAgree(keys, u, v, 0, Last(key, a));
    }
    if Object(keys, u, Last(key, a)) == Object(keys, v, Last(key, b)) {
      forall j: nat | j < |keys| ensures Join(u[j]) == Join(v[j]) {
        ObjectReadsBack(keys, u, Last(key, a), j);
        ObjectReadsBack(keys, v, Last(key, b), j);
      }
      MembersAgree(keys, u, v, 0, Last(key, a));
      SuffixCancel(Chars("{"), Members(keys, v, 0, Last(key, a)), Members(keys, v, 0, Last(key, b)));
      MembersSeparate(keys, v, 0, Last(key, a));
      MembersSeparate(keys, v, 0, Last(key, b));
      SuffixCancel(Members(keys, v, 0, []), Last(key, a), Last(key, b));
      LastExact(key, a, b);
    }
  }

  /** The fields one by one. */
  ghost predicate SevenAgree(u: seq<Text>, v: seq<Text>)
    requires |u| == |v| == |KEYS|
  {
    && Join(u[0]) == Join(v[0]) && Join(u[1]) == Join(v[1]) && Join(u[2]) == Join(v[2]) && Join(u[3]) == Join(v[3])
    && Join(u[4]) == Join(v[4]) && Join(u[5]) == Join(v[5]) && Join(u[6]) == Join(v[6])
  }

  lemma EachAgrees(u: seq<Text>, v: seq<Text>)
    requires |u| == |v| == |KEYS|
    ensures SevenAgree(u, v) <==> forall j :: 0 <= j < |u| ==> Join(u[j]) == Join(v[j])
  {
  }

  lemma SameFields<F>(d: Envelope<F>, e: Envelope<F>)
    ensures SameEnvelope(d, e) <==> SevenAgree(Stripped(d), Stripped(e)) && d.timestamp == e.timestamp
  {
  }

  /** Any change to a bound field that strip and the joining of surrogate pairs do not undo changes
      the bytes: they are equal exactly when all the normal fields and the timestamp are. */
  lemma CanonicalExact<F>(repr: F -> Bytes, d: Envelope<F>, e: Envelope<F>)
    requires repr(d.timestamp) == repr(e.timestamp) ==> d.timestamp == e.timestamp
    ensures Build(repr, d) == Build(repr, e) <==> SameEnvelope(d, e)
  {
    KeysDistinct();
    ObjectExact(KEYS, Stripped(d), Stripped(e), "timestamp", repr(d.timestamp), repr(e.timestamp));
    EachAgrees(Stripped(d), Stripped(e));
    SameFields(d, e);
  }

  /** The joining is no formality: a field with a surrogate pair gives the same bytes as the field with
      the one character the pair stands for. */
  lemma PairCollides<F>(repr: F -> Bytes, d: Envelope<F>, hi: nat, lo: nat) returns (e: Envelope<F>)
    requires IsHigh(hi) && IsLow(lo) && d.nonce == [hi, lo]
    ensures e == d.(nonce := [Pair(hi, lo)]) && Strip(e.nonce) != Strip(d.nonce) && Build(repr, d) == Build(repr, e)
  {
    e := d.(nonce := [Pair(hi, lo)]);
    TrimmedStays(d.nonce);
    TrimmedStays(e.nonce);
    assert d.nonce[2..] == [] && e.nonce[1..] == [];
    assert Join(d.nonce) == e.nonce == Join(e.nonce);
    CanonicalExact(repr, d, e);
  }

  lemma TrimmedStays(s: Text)
    requires Trimmed(s)
    ensures Strip(s) == s
  {
    StripExact([], s, []);
    assert [] + s + [] == s;
  }
}
