/** The environment netstring of an SCGI request, and a decoder for it. */
module Scgi {
  import opened Wrappers
  import opened Sequences
  import opened ByteStrings
  import opened Decimals

  datatype Variable = Variable(key: Bytes, value: Bytes)

  /** "CONTENT_LENGTH". */
  const CONTENT_LENGTH: Bytes := [67, 79, 78, 84, 69, 78, 84, 95, 76, 69, 78, 71, 84, 72]
  const COLON: Byte := 58
  const COMMA: Byte := 44

  // ---------------------------------------------------------------------------------------------
  // Encoding

  function EncodeVariable(v: Variable): Bytes {
    v.key + [0] + v.value + [0]
  }

  function EncodeAll(vs: seq<Variable>): Bytes {
    if vs == [] then [] else EncodeVariable(vs[0]) + EncodeAll(vs[1..])
  }

  /** The variables in the order in which they are sent. */
  function SendOrder(env: seq<Variable>): seq<Variable> {
    if env == [] then []
    else
      var n := |env| - 1;
      if env[n].key == CONTENT_LENGTH then [env[n]] + SendOrder(env[..n]) else SendOrder(env[..n]) + [env[n]]
  }

  function DigitBytes(ds: seq<Digit>): Bytes {
    seq(|ds|, i requires 0 <= i < |ds| => (ds[i] as int + 48) as Byte)
  }

  function Decimal(n: nat): Bytes {
    DigitBytes(Digits(n))
  }

  function Netstring(payload: Bytes): Bytes {
    Decimal(|payload|) + [COLON] + payload + [COMMA]
  }

  method BuildNetstring(env: seq<Variable>) returns (netstring: Bytes)
    ensures netstring == Netstring(EncodeAll(SendOrder(env)))
  {
    var toWrap: Bytes := [];
    for i := 0 to |env|
      invariant toWrap == EncodeAll(SendOrder(env[..i]))
    {
      assert env[..i + 1][..i] == env[..i];
      var one: Bytes := [];
      one := one + env[i].key;
      one := one + [0];
      one := one + env[i].value;
      one := one + [0];
      assert one == EncodeVariable(env[i]);
      if env[i].key == CONTENT_LENGTH {
        EncodeConcat([env[i]], SendOrder(env[..i]));
        toWrap := one + toWrap;
      } else {
        EncodeConcat(SendOrder(env[..i]), [env[i]]);
        toWrap := toWrap + one;
      }
      EncodeOne(env[i]);
    }
    assert env[..|env|] == env;
    netstring := Decimal(|toWrap|);
    netstring := netstring + [COLON];
    netstring := netstring + toWrap;
    netstring := netstring + [COMMA];
  }

  lemma EncodeOne(v: Variable)
    ensures EncodeAll([v]) == EncodeVariable(v)
  {
    assert [v][1..] == [];
  }

  lemma {:induction false} EncodeConcat(a: seq<Variable>, b: seq<Variable>)
    ensures EncodeAll(a + b) == EncodeAll(a) + EncodeAll(b)
  {
    if a == [] {
      assert a + b == b;
    } else {
      assert (a + b)[1..] == a[1..] + b;
      EncodeConcat(a[1..], b);
      Assoc(EncodeVariable(a[0]), EncodeAll(a[1..]), EncodeAll(b));
    }
  }

  // ---------------------------------------------------------------------------------------------
  // Decoding

  /** The bytes before the first `stop`, and those after it. */
  function Until(s: Bytes, stop: Byte): (r: Option<(Bytes, Bytes)>)
    ensures r.Some? ==> |r.value.1| < |s|
  {
    if s == [] then None
    else if s[0] == stop then Some(([], s[1..]))
    else
      var rest := Until(s[1..], stop);
      if rest.None? then None else Some(([s[0]] + rest.value.0, rest.value.1))
  }

  predicate AllDigits(s: Bytes) {
    forall i :: 0 <= i < |s| ==> 48 <= s[i] <= 57
  }

  function ParseDecimal(s: Bytes): Option<nat> {
    if s == [] || !AllDigits(s) then None
    else Some(ValueOf(seq(|s|, i requires 0 <= i < |s| => (s[i] - 48) as Digit)))
  }

  /** Names and values, each ended by NUL. */
  function ParseVariables(s: Bytes): Option<seq<Variable>>
    decreases |s|
  {
    if s == [] then Some([])
    else
      var key := Until(s, 0);
      if key.None? then None
      else
        var value := Until(key.value.1, 0);
        if value.None? then None
        else
          var rest := ParseVariables(value.value.1);
          if rest.None? then None else Some([Variable(key.value.0, value.value.0)] + rest.value)
  }

  /** The payload of a netstring. */
  function Payload(s: Bytes): Option<Bytes> {
    var split := Until(s, COLON);
    if split.None? then None
    else
      var length := ParseDecimal(split.value.0);
      var rest := split.value.1;
      if length.None? || |rest| != length.value + 1 || rest[length.value] != COMMA then None
      else Some(rest[..length.value])
  }

  function Decode(s: Bytes): Option<seq<Variable>> {
    var payload := Payload(s);
    if payload.None? then None else ParseVariables(payload.value)
  }

  // ---------------------------------------------------------------------------------------------
  // Round trip

  lemma {:induction false} UntilFirst(a: Bytes, stop: Byte, b: Bytes)
    requires stop !in a
    ensures Until(a + [stop] + b, stop) == Some((a, b))
    decreases |a|
  {
    var s := a + [stop] + b;
    if a == [] {
      assert s == [stop] + b && s[1..] == b;
    } else {
      assert s[1..] == a[1..] + [stop] + b;
      UntilFirst(a[1..], stop, b);
      assert a == [a[0]] + a[1..];
    }
  }

  lemma {:induction false} DecimalParses(n: nat)
    ensures ParseDecimal(Decimal(n)) == Some(n) && COLON !in Decimal(n) && |Decimal(n)| > 0
  {
    var s := Decimal(n);
    DigitsValue(n);
    assert seq(|s|, i requires 0 <= i < |s| => (s[i] - 48) as Digit) == Digits(n);
  }

  /** A netstring gives back its payload, whatever bytes it holds. */
  lemma {:induction false} NetstringPayload(payload: Bytes)
    ensures Payload(Netstring(payload)) == Some(payload)
  {
    var n := |payload|;
    DecimalParses(n);
    assert Netstring(payload) == Decimal(n) + [COLON] + (payload + [COMMA]);
    UntilFirst(Decimal(n), COLON, payload + [COMMA]);
    assert (payload + [COMMA])[..n] == payload;
  }

  ghost predicate NulFree(vs: seq<Variable>) {
    forall i :: 0 <= i < |vs| ==> 0 !in vs[i].key && 0 !in vs[i].value
  }

  lemma {:induction false} VariablesParse(vs: seq<Variable>)
    requires NulFree(vs)
    ensures ParseVariables(EncodeAll(vs)) == Some(vs)
  {
    if vs != [] {
      var v, rest := vs[0], EncodeAll(vs[1..]);
      VariablesParse(vs[1..]);
      assert EncodeAll(vs) == v.key + [0] + (v.value + [0] + rest);
      UntilFirst(v.key, 0, v.value + [0] + rest);
      UntilFirst(v.value, 0, rest);
      assert vs == [v] + vs[1..];
    }
  }

  // Counting NUL bytes shows that the condition is needed.

  ghost function Nuls(s: Bytes): nat {
    if s == [] then 0 else (if s[0] == 0 then 1 else 0) + Nuls(s[1..])
  }

  lemma {:induction false} NulsConcat(a: Bytes, b: Bytes)
    ensures Nuls(a + b) == Nuls(a) + Nuls(b)
  {
    if a == [] {
      assert a + b == b;
    } else {
      assert (a + b)[1..] == a[1..] + b;
      NulsConcat(a[1..], b);
    }
  }

  lemma {:induction false} NulsIn(s: Bytes)
    ensures Nuls(s) == 0 <==> 0 !in s
  {
    if s != [] {
      NulsIn(s[1..]);
      assert s == [s[0]] + s[1..];
    }
  }

  lemma {:induction false} UntilNuls(s: Bytes)
    ensures Until(s, 0).Some? ==> Nuls(s) == 1 + Nuls(Until(s, 0).value.1)
  {
    if s != [] && s[0] != 0 { UntilNuls(s[1..]); }
  }

  lemma {:induction false} ParsedNuls(s: Bytes)
    ensures ParseVariables(s).Some? ==> Nuls(s) == 2 * |ParseVariables(s).value|
    decreases |s|
  {
    if s != [] {
      UntilNuls(s);
      var key := Until(s, 0);
      if key.Some? {
        UntilNuls(key.value.1);
        var value := Until(key.value.1, 0);
        if value.Some? { ParsedNuls(value.value.1); }
      }
    }
  }

  lemma {:induction false} EncodedNuls(vs: seq<Variable>)
    ensures Nuls(EncodeAll(vs)) >= 2 * |vs|
    ensures Nuls(EncodeAll(vs)) == 2 * |vs| <==> NulFree(vs)
  {
    if vs != [] {
      var v := vs[0];
      EncodedNuls(vs[1..]);
      NulsConcat(EncodeVariable(v), EncodeAll(vs[1..]));
      NulsConcat(v.key + [0] + v.value, [0]);
      NulsConcat(v.key + [0], v.value);
      NulsConcat(v.key, [0]);
      assert Nuls([0]) == 1;
      NulsIn(v.key);
      NulsIn(v.value);
      assert vs == [v] + vs[1..];
    }
  }

  lemma {:induction false} SendOrderNulFree(env: seq<Variable>)
    ensures NulFree(SendOrder(env)) <==> NulFree(env)
  {
    if env != [] {
      var n := |env| - 1;
      SendOrderNulFree(env[..n]);
      assert env == env[..n] + [env[n]];
      NulFreeConcat(env[..n], [env[n]]);
      NulFreeConcat(SendOrder(env[..n]), [env[n]]);
      NulFreeConcat([env[n]], SendOrder(env[..n]));
    }
  }

  lemma NulFreeConcat(a: seq<Variable>, b: seq<Variable>)
    ensures NulFree(a + b) <==> NulFree(a) && NulFree(b)
  {
    if NulFree(a + b) {
      assert forall i :: 0 <= i < |a| ==> a[i] == (a + b)[i];
      assert forall i :: 0 <= i < |b| ==> b[i] == (a + b)[|a| + i];
    }
  }

  /** Decoding recovers the variables, in the order in which they are sent, exactly when none contains NUL. */
  lemma {:induction false} RoundTripIff(env: seq<Variable>)
    ensures Decode(Netstring(EncodeAll(SendOrder(env)))) == Some(SendOrder(env)) <==> NulFree(env)
  {
    var vs := SendOrder(env);
    NetstringPayload(EncodeAll(vs));
    SendOrderNulFree(env);
    if NulFree(env) {
      VariablesParse(vs);
    } else {
      EncodedNuls(vs);
      ParsedNuls(EncodeAll(vs));
    }
  }

  ghost predicate DistinctKeys(env: seq<Variable>) {
    forall i, j :: 0 <= i < j < |env| ==> env[i].key != env[j].key
  }

  lemma {:induction false} SendOrderUnchanged(env: seq<Variable>)
    requires forall i :: 0 <= i < |env| ==> env[i].key != CONTENT_LENGTH
    ensures SendOrder(env) == env
  {
    if env != [] {
      SendOrderUnchanged(env[..|env| - 1]);
      assert env == env[..|env| - 1] + [env[|env| - 1]];
    }
  }

  /** With distinct names, CONTENT_LENGTH comes first and the others keep their order. */
  lemma {:induction false} ContentLengthFirst(env: seq<Variable>, k: nat)
    requires DistinctKeys(env) && k < |env| && env[k].key == CONTENT_LENGTH
    ensures SendOrder(env) == [env[k]] + (env[..k] + env[k + 1..])
    decreases |env|
  {
    var n := |env| - 1;
    if k == n {
      SendOrderUnchanged(env[..n]);
      assert env[n + 1..] == [] && env[..n] + [] == env[..n];
    } else {
      ContentLengthFirst(env[..n], k);
      assert env[..n][..k] == env[..k];
      assert env[..n][k + 1..] + [env[n]] == env[k + 1..];
      assert [env[k]] + (env[..k] + env[..n][k + 1..]) + [env[n]] == [env[k]] + (env[..k] + (env[..n][k + 1..] + [env[n]]));
    }
  }
}
