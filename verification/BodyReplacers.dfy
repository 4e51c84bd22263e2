/**
The streaming search-and-replace body of `BodyReplacer`: a body arrives in arbitrary frames, and a
tail is held back so that a match may span frames.
*/
module BodyReplacers {
  import opened Wrappers
  import opened Sequences
  import opened ByteStrings
  import opened Search

  /** What one `poll_frame` returns.  `End` is `Ready(None)`. */
  datatype Poll =
    | Data(bytes: Bytes)
    | Trailers(id: int)
    | Failed(error: int)
    | Pending
    | End

  datatype Replacer = Replacer(searched: Bytes, replacement: Bytes, once: bool)

  /** The fields that `poll_frame` updates. */
  datatype State = State(replaced: bool, buffer: Option<Bytes>)

  const Fresh := State(false, None)

  ghost function Held(st: State): Bytes {
    if st.buffer.Some? then st.buffer.value else []
  }

  /** What the search loop has written, and the unsearched rest it stops at. */
  ghost function Consume(c: Replacer, s: Bytes): (Bytes, Bytes)
    requires |c.searched| > 0
    decreases |s|
  {
    match Find(c.searched, s)
    case None => ([], s)
    case Some(i) =>
      var rest := s[i + |c.searched|..];
      if c.once then (s[..i] + c.replacement, rest)
      else
        var (written, tail) := Consume(c, rest);
        (s[..i] + c.replacement + written, tail)
  }

  /** How many of the `n` remaining bytes are held back: as many as a match is long. */
  function KeepLength(c: Replacer, n: nat): nat {
    if n < |c.searched| then n else |c.searched|
  }

  /** A data frame through the replacer. */
  ghost function Step(c: Replacer, st: State, d: Bytes): (State, Bytes) {
    if (st.replaced && c.once) || |c.searched| == 0 then (st, d)
    else
      var all := Held(st) + d;
      var (written, tail) := Consume(c, all);
      var cut := Split(c, tail);
      (State(st.replaced || Find(c.searched, all).Some?, Some(tail[cut..])), written + tail[..cut])
  }

  /** Where the held tail begins. */
  ghost function Split(c: Replacer, tail: Bytes): (cut: nat)
    ensures cut <= |tail|
    ensures |tail| - cut == if |tail| < |c.searched| then |tail| else |c.searched|
  {
    |tail| - KeepLength(c, |tail|)
  }

  /** One poll of the wrapping body, given what the wrapped body answered. */
  ghost function PollStep(c: Replacer, st: State, inner: Poll): (State, Poll) {
    match inner
    case Data(d) =>
      var (st', out) := Step(c, st, d);
      (st', Data(out))
    case End =>
      if st.buffer.Some? then (st.(buffer := None), Data(st.buffer.value)) else (st, End)
    case _ => (st, inner)
  }

  /** Output `out` and position `i` are a point the search loop passes through. */
  ghost predicate Resumes(c: Replacer, s: Bytes, out: Bytes, i: nat)
    requires |c.searched| > 0 && i <= |s|
  {
    var (written, tail) := Consume(c, s[i..]);
    (out + written, tail) == Consume(c, s)
  }

  lemma {:induction false} ConsumeDone(c: Replacer, s: Bytes, out: Bytes, i: nat)
    requires |c.searched| > 0 && i <= |s| && Resumes(c, s, out, i)
    requires Find(c.searched, s[i..]).None?
    ensures (out, s[i..]) == Consume(c, s)
  {
    assert out + [] == out;
  }

  /** One unfolding of the search loop. */
  lemma {:induction false} ConsumeAt(c: Replacer, t: Bytes, k: nat)
    requires |c.searched| > 0 && Find(c.searched, t) == Some(k)
    ensures k + |c.searched| <= |t|
    ensures c.once ==> Consume(c, t) == (t[..k] + c.replacement, t[k + |c.searched|..])
    ensures !c.once ==> var (written, tail) := Consume(c, t[k + |c.searched|..]);
                        Consume(c, t) == (t[..k] + c.replacement + written, tail)
  {
  }

  lemma {:induction false} ConsumeOne(c: Replacer, s: Bytes, out: Bytes, i: nat, k: nat)
    requires |c.searched| > 0 && i <= |s| && Resumes(c, s, out, i)
    requires Find(c.searched, s[i..]) == Some(k)
    ensures var next := i + k + |c.searched|;
            var out' := out + s[i..][..k] + c.replacement;
            && next <= |s|
            && (if c.once then (out', s[next..]) == Consume(c, s) else Resumes(c, s, out', next))
  {
    ConsumeAt(c, s[i..], k);
    SlicesAgree(s, i, k, |c.searched|);
    if c.once {
      assert out + s[i..][..k] + c.replacement == out + (s[i..][..k] + c.replacement);
    } else {
      Regroup(out, s[i..][..k], c.replacement, Consume(c, s[i + k + |c.searched|..]).0);
    }
  }

  /** The wrapping body, with the loop of `poll_frame` as it is written. */
  class ReplaceBody {
    const config: Replacer
    var replaced: bool
    var buffer: Option<Bytes>

    ghost function View(): State
      reads this
    {
      State(replaced, buffer)
    }

    constructor (config: Replacer)
      ensures this.config == config && View() == Fresh
    {
      this.config, replaced, buffer := config, false, None;
    }

    method PollFrame(inner: Poll) returns (out: Poll)
      modifies this
      ensures (View(), out) == PollStep(config, old(View()), inner)
    {
      match inner {
        case Data(data) =>
          if (replaced && config.once) || |config.searched| == 0 {
            return inner;
          }
          var output := ReplaceInFrame(data);
          return Data(output);
        case End =>
          if buffer.Some? {
            var rest := buffer.value;
            buffer := None;
            return Data(rest);
          }
          return End;
        case _ =>
          return inner;
      }
    }

    method ReplaceInFrame(data: Bytes) returns (output: Bytes)
      requires !(replaced && config.once) && |config.searched| > 0
      modifies this
      ensures (View(), output) == Step(config, old(View()), data)
    {
      var combined := if buffer.Some? then buffer.value + data else data;
      assert combined == Held(View()) + data;
      var searched := ReplaceMatches(combined);
      output := HoldBack(searched.0, combined, searched.1);
    }

    /** Writes what can no longer be part of a match and holds back the rest. */
    method HoldBack(written: Bytes, combined: Bytes, lastBegin: nat) returns (output: Bytes)
      requires lastBegin <= |combined|
      modifies this`buffer
      ensures var tail := combined[lastBegin..]; var cut := Split(config, tail);
              buffer == Some(tail[cut..]) && output == written + tail[..cut]
    {
      var n := |config.searched|;
      ghost var tail := combined[lastBegin..];
      if |combined| - lastBegin < n {
        buffer := Some(combined[lastBegin..]);
        output := written;
        assert tail[0..] == tail && written + tail[..0] == written;
      } else {
        output := written + combined[lastBegin..|combined| - n];
        buffer := Some(combined[|combined| - n..]);
        ghost var cut := |tail| - n;
        assert combined[lastBegin..|combined| - n] == tail[..cut];
        assert combined[|combined| - n..] == tail[cut..];
      }
    }

    /** The `while let Some(index) = finder.find(..)` loop. */
    method ReplaceMatches(combined: Bytes) returns (result: (Bytes, nat))
      requires |config.searched| > 0
      modifies this`replaced
      ensures result.1 <= |combined|
      ensures (result.0, combined[result.1..]) == Consume(config, combined)
      ensures replaced == (old(replaced) || Find(config.searched, combined).Some?)
    {
      var output: Bytes := [];
      var lastBegin := 0;
      assert combined[0..] == combined;
      assert output + Consume(config, combined).0 == Consume(config, combined).0;
      while true
        invariant lastBegin <= |combined|
        invariant Resumes(config, combined, output, lastBegin)
        invariant if lastBegin == 0 then replaced == old(replaced)
                  else replaced && !config.once && Find(config.searched, combined).Some?
        decreases |combined| - lastBegin
      {
        var rest := combined[lastBegin..];
        var index := FindIndex(config.searched, rest);
        if index.None? {
          ConsumeDone(config, combined, output, lastBegin);
          break;
        }
        ConsumeOne(config, combined, output, lastBegin, index.value);
        output := output + rest[..index.value] + config.replacement;
        lastBegin := lastBegin + index.value + |config.searched|;
        replaced := true;
        if config.once {
          break;
        }
      }
      return (output, lastBegin);
    }
  }

  // ---------------------------------------------------------------------------------------------
  // Whole runs

  /** A body, poll by poll, up to its end; after the last element it answers `End` for ever. */
  ghost predicate IsBody(body: seq<Poll>) {
    forall i :: 0 <= i < |body| ==> body[i] != End
  }

  function DataOfPoll(p: Poll): Bytes {
    if p.Data? then p.bytes else []
  }

  /** The concatenated data of a body. */
  ghost function DataOf(body: seq<Poll>): Bytes {
    FlatMap(DataOfPoll, body)
  }

  /** State and answers after the wrapped body has given `body`. */
  ghost function Run(c: Replacer, body: seq<Poll>): (State, seq<Poll>) {
    if body == [] then (Fresh, [])
    else
      var (st, outs) := Run(c, body[..|body| - 1]);
      var (st', out) := PollStep(c, st, body[|body| - 1]);
      (st', outs + [out])
  }

  /** The answers to a consumer that polls until `End`. */
  ghost function Transform(c: Replacer, body: seq<Poll>): seq<Poll> {
    var (st, outs) := Run(c, body);
    if st.buffer.Some? then outs + [Data(st.buffer.value)] else outs
  }

  /** A consumer polling the wrapping body to its end. */
  method Drain(c: Replacer, body: seq<Poll>) returns (outs: seq<Poll>)
    requires IsBody(body)
    ensures outs == Transform(c, body)
  {
    var wrapped := new ReplaceBody(c);
    outs := [];
    assert body[..0] == [];
    for i := 0 to |body|
      invariant wrapped.config == c
      invariant (wrapped.View(), outs) == Run(c, body[..i])
    {
      assert body[..i + 1][..i] == body[..i];
      var out := wrapped.PollFrame(body[i]);
      outs := outs + [out];
    }
    assert body[..|body|] == body;
    var last := wrapped.PollFrame(End);
    if last != End {
      outs := outs + [last];
      last := wrapped.PollFrame(End);
      assert last == End;
    }
  }

  lemma TransformIsBody(c: Replacer, body: seq<Poll>)
    requires IsBody(body)
    ensures IsBody(Transform(c, body))
  {
    RunIsBody(c, body);
  }

  lemma {:induction false} RunIsBody(c: Replacer, body: seq<Poll>)
    requires IsBody(body)
    ensures IsBody(Run(c, body).1)
  {
    if body != [] {
      RunIsBody(c, body[..|body| - 1]);
    }
  }

  /** Answer by answer: data are answered with data, and everything else comes through unchanged where it came in. */
  lemma {:induction false} OthersPassThrough(c: Replacer, body: seq<Poll>)
    requires IsBody(body)
    ensures var outs := Transform(c, body);
            && |body| <= |outs| <= |body| + 1
            && (forall i :: 0 <= i < |body| ==> if body[i].Data? then outs[i].Data? else outs[i] == body[i])
            && (|outs| > |body| ==> outs[|body|].Data?)
  {
    RunPasses(c, body);
  }

  lemma {:induction false} RunPasses(c: Replacer, body: seq<Poll>)
    requires IsBody(body)
    ensures var outs := Run(c, body).1;
            |outs| == |body| && forall i :: 0 <= i < |body| ==> if body[i].Data? then outs[i].Data? else outs[i] == body[i]
  {
    if body != [] {
      RunPasses(c, body[..|body| - 1]);
    }
  }

  // ---------------------------------------------------------------------------------------------
  // Replacing every occurrence

  /** The search loop, seen from any continuation `x` of the data. */
  lemma {:induction false} ConsumeReplaces(c: Replacer, s: Bytes, x: Bytes)
    requires !c.once && |c.searched| > 0
    ensures Find(c.searched, Consume(c, s).1).None?
    ensures ReplaceAll(c.searched, c.replacement, s + x)
         == Consume(c, s).0 + ReplaceAll(c.searched, c.replacement, Consume(c, s).1 + x)
    decreases |s|
  {
    var p, r := c.searched, c.replacement;
    match Find(p, s) {
      case None =>
      case Some(k) =>
        var rest := s[k + |p|..];
        ConsumeReplaces(c, rest, x);
        var (written, tail) := Consume(c, rest);
        ConsumeAt(c, s, k);
        FindStable(p, s, x);
        ReplaceMatch(p, r, s, x, k);
        Assoc(s[..k] + r, written, ReplaceAll(p, r, tail + x));
    }
  }

  lemma {:induction false} ReplaceMatch(p: Bytes, r: Bytes, s: Bytes, x: Bytes, k: nat)
    requires |p| > 0 && Find(p, s) == Some(k) && Find(p, s + x) == Some(k)
    ensures k + |p| <= |s|
    ensures ReplaceAll(p, r, s + x) == s[..k] + r + ReplaceAll(p, r, s[k + |p|..] + x)
  {
    ReplaceAllAt(p, r, s + x, k);
    assert (s + x)[..k] == s[..k] && (s + x)[k + |p|..] == s[k + |p|..] + x;
  }

  /** Bytes before the cut can no longer begin a match. */
  lemma {:induction false} HoldBackReplaces(c: Replacer, tail: Bytes, x: Bytes)
    requires |c.searched| > 0 && Find(c.searched, tail).None?
    ensures var cut := Split(c, tail);
            && Find(c.searched, tail[cut..]).None?
            && ReplaceAll(c.searched, c.replacement, tail + x)
            == tail[..cut] + ReplaceAll(c.searched, c.replacement, tail[cut..] + x)
  {
    var cut := Split(c, tail);
    forall j: nat | j < cut ensures !OccursAt(c.searched, tail + x, j) {
      OccursInPrefix(c.searched, tail, x, j);
    }
    FindAfter(c.searched, tail, cut);
    ReplaceAllSkips(c.searched, c.replacement, tail + x, cut);
    assert (tail + x)[..cut] == tail[..cut] && (tail + x)[cut..] == tail[cut..] + x;
  }

  lemma {:induction false} StepReplaces(c: Replacer, st: State, d: Bytes, x: Bytes)
    requires !c.once && |c.searched| > 0
    ensures var (st', out) := Step(c, st, d);
            && Find(c.searched, Held(st')).None?
            && ReplaceAll(c.searched, c.replacement, Held(st) + d + x)
            == out + ReplaceAll(c.searched, c.replacement, Held(st') + x)
  {
    var all := Held(st) + d;
    ConsumeReplaces(c, all, x);
    var (written, tail) := Consume(c, all);
    HoldBackReplaces(c, tail, x);
    var cut := Split(c, tail);
    var after := ReplaceAll(c.searched, c.replacement, tail[cut..] + x);
    assert written + tail[..cut] + after == written + (tail[..cut] + after);
  }

  /** At every point of every run, what is written and what is held stand for the data so far. */
  lemma {:induction false} RunReplaces(c: Replacer, body: seq<Poll>, x: Bytes)
    requires IsBody(body) && !c.once && |c.searched| > 0
    ensures var (st, outs) := Run(c, body);
            && Find(c.searched, Held(st)).None?
            && ReplaceAll(c.searched, c.replacement, DataOf(body) + x)
            == DataOf(outs) + ReplaceAll(c.searched, c.replacement, Held(st) + x)
    decreases |body|
  {
    if body != [] {
      var prev, last := body[..|body| - 1], body[|body| - 1];
      var d := DataOfPoll(last);
      RunReplaces(c, prev, d + x);
      Assoc(DataOf(prev), d, x);
      var (st, outs) := Run(c, prev);
      var (st', out) := PollStep(c, st, last);
      assert Run(c, body) == (st', outs + [out]);
      PollReplaces(c, st, last, x);
      FlatMapSnoc(DataOfPoll, outs, out);
      Assoc(DataOf(outs), DataOfPoll(out), ReplaceAll(c.searched, c.replacement, Held(st') + x));
    } else {
      assert [] + x == x;
    }
  }

  lemma {:induction false} PollReplaces(c: Replacer, st: State, last: Poll, x: Bytes)
    requires !c.once && |c.searched| > 0 && last != End
    requires Find(c.searched, Held(st)).None?
    ensures var (st', out) := PollStep(c, st, last);
            && Find(c.searched, Held(st')).None?
            && ReplaceAll(c.searched, c.replacement, Held(st) + (DataOfPoll(last) + x))
            == DataOfPoll(out) + ReplaceAll(c.searched, c.replacement, Held(st') + x)
  {
    assert Held(st) + (DataOfPoll(last) + x) == Held(st) + DataOfPoll(last) + x;
    if last.Data? {
      StepReplaces(c, st, last.bytes, x);
    } else {
      assert DataOfPoll(last) + x == x;
    }
  }

  /** What a replacer is configured to do to a whole string; an empty pattern matches nothing. */
  ghost function Whole(c: Replacer, s: Bytes): Bytes {
    if |c.searched| == 0 then s else ReplaceAll(c.searched, c.replacement, s)
  }

  /** Streaming replacement is whole-string replacement, however the body is split into frames. */
  lemma {:induction false} StreamingReplacesAll(c: Replacer, body: seq<Poll>)
    requires IsBody(body) && !c.once
    ensures DataOf(Transform(c, body)) == Whole(c, DataOf(body))
  {
    if |c.searched| == 0 {
      RunPassesThrough(c, body);
    } else {
      RunReplaces(c, body, []);
      var (st, outs) := Run(c, body);
      assert DataOf(body) + [] == DataOf(body) && Held(st) + [] == Held(st);
      FlatMapSnoc(DataOfPoll, outs, Data(Held(st)));
    }
  }

  lemma {:induction false} RunPassesThrough(c: Replacer, body: seq<Poll>)
    requires IsBody(body) && |c.searched| == 0
    ensures Run(c, body) == (Fresh, body)
  {
    if body != [] {
      RunPassesThrough(c, body[..|body| - 1]);
      assert body == body[..|body| - 1] + [body[|body| - 1]];
    }
  }

  /** At no point of any run is more held back than the length of the pattern. */
  lemma {:induction false} HeldIsBounded(c: Replacer, body: seq<Poll>)
    requires IsBody(body)
    ensures |Held(Run(c, body).0)| <= |c.searched|
    ensures |c.searched| == 0 ==> Run(c, body).0.buffer.None?
  {
    if body != [] {
      HeldIsBounded(c, body[..|body| - 1]);
    }
  }

  // ---------------------------------------------------------------------------------------------
  // Chains of replacers

  /** Bodies wrapped one in another, the first replacer innermost. */
  ghost function Chain(rs: seq<Replacer>, body: seq<Poll>): seq<Poll> {
    if rs == [] then body
    else Transform(rs[|rs| - 1], Chain(rs[..|rs| - 1], body))
  }

  /** The whole-string replacements one after another, in configured order. */
  ghost function WholeChain(rs: seq<Replacer>, s: Bytes): Bytes {
    if rs == [] then s else Whole(rs[|rs| - 1], WholeChain(rs[..|rs| - 1], s))
  }

  lemma {:induction false} ChainReplacesAll(rs: seq<Replacer>, body: seq<Poll>)
    requires IsBody(body)
    requires forall c :: c in rs ==> !c.once
    ensures IsBody(Chain(rs, body))
    ensures DataOf(Chain(rs, body)) == WholeChain(rs, DataOf(body))
  {
    if rs != [] {
      var prev, c := rs[..|rs| - 1], rs[|rs| - 1];
      ChainReplacesAll(prev, body);
      TransformIsBody(c, Chain(prev, body));
      StreamingReplacesAll(c, Chain(prev, body));
    }
  }

  /** The wrapping loop of the response handler, followed by a consumer. */
  method DrainChain(rs: seq<Replacer>, body: seq<Poll>) returns (outs: seq<Poll>)
    requires IsBody(body)
    ensures outs == Chain(rs, body)
    ensures (forall c :: c in rs ==> !c.once) ==> DataOf(outs) == WholeChain(rs, DataOf(body))
  {
    outs := body;
    assert rs[..0] == [];
    for i := 0 to |rs|
      invariant IsBody(outs) && outs == Chain(rs[..i], body)
    {
      TransformIsBody(rs[i], outs);
      outs := Drain(rs[i], outs);
      assert rs[..i + 1][..i] == rs[..i];
    }
    assert rs[..|rs|] == rs;
    if forall c :: c in rs ==> !c.once {
      ChainReplacesAll(rs, body);
    }
  }

  // ---------------------------------------------------------------------------------------------
  // Replacing once

  /** No match yet: everything but the held tail has been written unchanged. */
  ghost predicate Waiting(c: Replacer, st: State, seen: Bytes, written: Bytes) {
    && !st.replaced
    && written + Held(st) == seen
    && Find(c.searched, seen).None?
    && |Held(st)| == KeepLength(c, |seen|)
  }

  /** While nothing has matched, a search in the held tail and the new frame sees every match. */
  lemma {:induction false} WaitingSees(c: Replacer, st: State, seen: Bytes, written: Bytes, d: Bytes)
    requires |c.searched| > 0 && Waiting(c, st, seen, written)
    ensures seen + d == written + (Held(st) + d)
    ensures Find(c.searched, seen + d)
         == (match Find(c.searched, Held(st) + d) case None => None case Some(i) => Some(|written| + i))
  {
    var p, all := c.searched, Held(st) + d;
    assert seen + d == written + all;
    forall j: nat | j < |written| ensures !OccursAt(p, seen + d, j) {
      OccursInPrefix(p, seen, d, j);
    }
    assert (seen + d)[|written|..] == all;
    FindAfter(p, seen + d, |written|);
  }

  lemma {:induction false} WaitingMiss(c: Replacer, st: State, seen: Bytes, written: Bytes, d: Bytes)
    requires |c.searched| > 0 && Waiting(c, st, seen, written)
    requires Find(c.searched, seen + d).None?
    ensures var (st', out) := Step(c, st, d); Waiting(c, st', seen + d, written + out)
  {
    WaitingSees(c, st, seen, written, d);
    var all := Held(st) + d;
    var cut := Split(c, all);
    assert Step(c, st, d).1 == [] + all[..cut] == all[..cut];
    assert written + all[..cut] + all[cut..] == written + all;
  }

  /** The part of `front` that the matching frame writes, and the part it holds back. */
  ghost function OnceHead(c: Replacer, front: Bytes): Bytes
    requires Find(c.searched, front).Some?
  {
    var i := Find(c.searched, front).value;
    var rest := front[i + |c.searched|..];
    front[..i] + c.replacement + rest[..Split(c, rest)]
  }

  ghost function OnceTail(c: Replacer, front: Bytes): (held: Bytes)
    requires Find(c.searched, front).Some?
    ensures |held| <= |c.searched|
  {
    var i := Find(c.searched, front).value;
    var rest := front[i + |c.searched|..];
    rest[Split(c, rest)..]
  }

  /** A frame with the match, when replacing once. */
  lemma {:induction false} StepHit(c: Replacer, st: State, d: Bytes, i: nat)
    requires c.once && |c.searched| > 0 && !st.replaced && Find(c.searched, Held(st) + d) == Some(i)
    ensures var all := Held(st) + d;
            && i + |c.searched| <= |all|
            && var rest := all[i + |c.searched|..];
               Step(c, st, d) == (State(true, Some(rest[Split(c, rest)..])), all[..i] + c.replacement + rest[..Split(c, rest)])
  {
    ConsumeAt(c, Held(st) + d, i);
  }

  /** The same head and tail, when the match lies behind what has been written. */
  lemma {:induction false} OnceBehind(c: Replacer, written: Bytes, all: Bytes, i: nat)
    requires i + |c.searched| <= |all| && Find(c.searched, written + all) == Some(|written| + i)
    ensures var rest := all[i + |c.searched|..];
            && OnceHead(c, written + all) == written + (all[..i] + c.replacement + rest[..Split(c, rest)])
            && OnceTail(c, written + all) == rest[Split(c, rest)..]
  {
    var rest := all[i + |c.searched|..];
    FrontSlices(written, all, i, |c.searched|);
    Regroup(written, all[..i], c.replacement, rest[..Split(c, rest)]);
  }

  lemma {:induction false} WaitingHit(c: Replacer, st: State, seen: Bytes, written: Bytes, d: Bytes)
    requires c.once && |c.searched| > 0 && Waiting(c, st, seen, written)
    requires Find(c.searched, seen + d).Some?
    ensures Step(c, st, d).0 == State(true, Some(OnceTail(c, seen + d)))
    ensures written + Step(c, st, d).1 == OnceHead(c, seen + d)
  {
    WaitingSees(c, st, seen, written, d);
    var all := Held(st) + d;
    var i := Find(c.searched, all).value;
    StepHit(c, st, d, i);
    OnceBehind(c, written, all, i);
  }

  lemma FrontSlices(a: Bytes, b: Bytes, i: nat, n: nat)
    requires i + n <= |b|
    ensures (a + b)[|a| + i + n..] == b[i + n..]
    ensures (a + b)[..|a| + i] == a + b[..i]
  {
  }

  lemma {:induction false} PollWaiting(c: Replacer, st: State, seen: Bytes, written: Bytes, last: Poll)
    requires |c.searched| > 0 && Waiting(c, st, seen, written) && last != End
    requires Find(c.searched, seen + DataOfPoll(last)).None?
    ensures var (st', out) := PollStep(c, st, last);
            Waiting(c, st', seen + DataOfPoll(last), written + DataOfPoll(out))
  {
    if last.Data? {
      WaitingMiss(c, st, seen, written, last.bytes);
    } else {
      assert seen + [] == seen && written + [] == written;
    }
  }

  lemma {:induction false} RunWaiting(c: Replacer, body: seq<Poll>)
    requires IsBody(body) && |c.searched| > 0
    requires Find(c.searched, DataOf(body)).None?
    ensures var (st, outs) := Run(c, body); Waiting(c, st, DataOf(body), DataOf(outs))
  {
    if body != [] {
      var prev, last := body[..|body| - 1], body[|body| - 1];
      PrefixHasNoMatch(c.searched, DataOf(prev), DataOfPoll(last));
      RunWaiting(c, prev);
      var (st, outs) := Run(c, prev);
      PollWaiting(c, st, DataOf(prev), DataOf(outs), last);
      FlatMapSnoc(DataOfPoll, outs, PollStep(c, st, last).1);
    }
  }

  lemma {:induction false} PrefixHasNoMatch(p: Bytes, s: Bytes, x: Bytes)
    requires Find(p, s + x).None?
    ensures Find(p, s).None?
  {
    if Find(p, s).Some? { FindStable(p, s, x); }
  }

  /** After the replacement, later frames pass through and the held tail stays held. */
  lemma {:induction false} RunAfterMatch(c: Replacer, body: seq<Poll>, k: nat)
    requires IsBody(body) && c.once && k <= |body|
    requires Run(c, body[..k]).0.replaced
    ensures Run(c, body).0 == Run(c, body[..k]).0
    ensures DataOf(Run(c, body).1) == DataOf(Run(c, body[..k]).1) + DataOf(body[k..])
    decreases |body|
  {
    if k == |body| {
      assert body[..k] == body && body[k..] == [];
    } else {
      var n := |body| - 1;
      assert body[..n][..k] == body[..k];
      RunAfterMatch(c, body[..n], k);
      var (st, outs) := Run(c, body[..n]);
      assert PollStep(c, st, body[n]) == (st, body[n]);
      FlatMapSnoc(DataOfPoll, outs, body[n]);
      DataOfLast(body, k);
      Assoc(DataOf(Run(c, body[..k]).1), DataOf(body[k..n]), DataOfPoll(body[n]));
    }
  }

  lemma DataOfLast(body: seq<Poll>, k: nat)
    requires k < |body|
    ensures body[..|body| - 1][k..] == body[k..|body| - 1]
    ensures DataOf(body[k..]) == DataOf(body[k..|body| - 1]) + DataOfPoll(body[|body| - 1])
  {
    assert body[k..] == body[k..|body| - 1] + [body[|body| - 1]];
    FlatMapSnoc(DataOfPoll, body[k..|body| - 1], body[|body| - 1]);
  }

  /** `k` is the first frame through which the data contain a match. */
  ghost predicate MatchingFrame(c: Replacer, body: seq<Poll>, k: nat) {
    && k < |body|
    && Find(c.searched, DataOf(body[..k])).None?
    && Find(c.searched, DataOf(body[..k + 1])).Some?
  }

  /**
  With `once` on, the output is a head, then all later data, then the tail held back by the
  matching frame; head and tail together are replace-first of the data through that frame.
  */
  lemma {:induction false} OnceOutput(c: Replacer, body: seq<Poll>, k: nat)
    requires IsBody(body) && c.once && |c.searched| > 0 && MatchingFrame(c, body, k)
    ensures var front, later := DataOf(body[..k + 1]), DataOf(body[k + 1..]);
            && DataOf(Transform(c, body)) == OnceHead(c, front) + later + OnceTail(c, front)
            && ReplaceFirst(c.searched, c.replacement, front) == OnceHead(c, front) + OnceTail(c, front)
  {
    var front := DataOf(body[..k + 1]);
    OnceThroughMatch(c, body, k);
    RunAfterMatch(c, body, k + 1);
    FlatMapSnoc(DataOfPoll, Run(c, body).1, Data(OnceTail(c, front)));
    OnceParts(c, front);
  }

  /** What has been written and what is held when the matching frame is through. */
  lemma {:induction false} OnceThroughMatch(c: Replacer, body: seq<Poll>, k: nat)
    requires IsBody(body) && c.once && |c.searched| > 0 && MatchingFrame(c, body, k)
    ensures var front := DataOf(body[..k + 1]); var (st, outs) := Run(c, body[..k + 1]);
            st == State(true, Some(OnceTail(c, front))) && DataOf(outs) == OnceHead(c, front)
  {
    var prev, last := body[..k], body[k];
    assert body[..k + 1][..k] == prev;
    RunWaiting(c, prev);
    var (st, outs) := Run(c, prev);
    assert DataOf(prev) + [] == DataOf(prev);
    assert last.Data?;
    WaitingHit(c, st, DataOf(prev), DataOf(outs), last.bytes);
    FlatMapSnoc(DataOfPoll, outs, PollStep(c, st, last).1);
  }

  lemma {:induction false} OnceParts(c: Replacer, front: Bytes)
    requires Find(c.searched, front).Some?
    ensures ReplaceFirst(c.searched, c.replacement, front) == OnceHead(c, front) + OnceTail(c, front)
  {
    var i := Find(c.searched, front).value;
    var rest := front[i + |c.searched|..];
    JoinCut(front[..i] + c.replacement, rest, Split(c, rest));
  }

  lemma JoinCut(a: Bytes, rest: Bytes, cut: nat)
    requires cut <= |rest|
    ensures a + rest == a + rest[..cut] + rest[cut..]
  {
    assert rest == rest[..cut] + rest[cut..];
    Assoc(a, rest[..cut], rest[cut..]);
  }

  /** Without a match nothing is changed; with one, some frame is the matching frame. */
  lemma {:induction false} OnceWithoutMatch(c: Replacer, body: seq<Poll>)
    requires IsBody(body) && c.once
    requires |c.searched| > 0 ==> Find(c.searched, DataOf(body)).None?
    ensures DataOf(Transform(c, body)) == DataOf(body)
  {
    if |c.searched| == 0 {
      RunPassesThrough(c, body);
    } else {
      RunWaiting(c, body);
      var (st, outs) := Run(c, body);
      FlatMapSnoc(DataOfPoll, outs, Data(Held(st)));
    }
  }

  lemma {:induction false} MatchingFrameExists(c: Replacer, body: seq<Poll>)
    requires |c.searched| > 0 && Find(c.searched, DataOf(body)).Some?
    ensures exists k: nat :: MatchingFrame(c, body, k)
  {
    var n := |body| - 1;
    assert body[..n + 1] == body;
    if Find(c.searched, DataOf(body[..n])).None? {
      assert MatchingFrame(c, body, n);
    } else {
      MatchingFrameExists(c, body[..n]);
      var k: nat :| MatchingFrame(c, body[..n], k);
      assert body[..n][..k] == body[..k] && body[..n][..k + 1] == body[..k + 1];
      assert MatchingFrame(c, body, k);
    }
  }

  /**
  With `once` on, streaming agrees with whole-string replace-first exactly when the later data and
  the held tail may be exchanged: in particular when either of them is empty.
  */
  lemma {:induction false} OnceIsReplaceFirstIff(c: Replacer, body: seq<Poll>, k: nat)
    requires IsBody(body) && c.once && |c.searched| > 0 && MatchingFrame(c, body, k)
    ensures var later, tail := DataOf(body[k + 1..]), OnceTail(c, DataOf(body[..k + 1]));
            DataOf(Transform(c, body)) == ReplaceFirst(c.searched, c.replacement, DataOf(body))
            <==> later + tail == tail + later
  {
    var front, later := DataOf(body[..k + 1]), DataOf(body[k + 1..]);
    var head, tail := OnceHead(c, front), OnceTail(c, front);
    OnceOutput(c, body, k);
    FlatMapSplit(DataOfPoll, body, k + 1);
    ReplaceFirstExtends(c, front, later);
    Assoc(head, later, tail);
    Assoc(head, tail, later);
    CancelLeft(head, later + tail, tail + later);
  }

  lemma CancelLeft(a: Bytes, b: Bytes, c: Bytes)
    requires |b| == |c|
    ensures a + b == a + c <==> b == c
  {
    assert (a + b)[|a|..] == b && (a + c)[|a|..] == c;
  }

  lemma {:induction false} ReplaceFirstExtends(c: Replacer, front: Bytes, later: Bytes)
    requires Find(c.searched, front).Some?
    ensures ReplaceFirst(c.searched, c.replacement, front + later)
         == ReplaceFirst(c.searched, c.replacement, front) + later
  {
    FindStable(c.searched, front, later);
    var i := Find(c.searched, front).value;
    var j := i + |c.searched|;
    assert (front + later)[..i] == front[..i] && (front + later)[j..] == front[j..] + later;
    Assoc(front[..i] + c.replacement, front[j..], later);
  }

  /**
  Bodies on which it shows: a frame that ends one byte after the match, and one more byte.  The
  two bytes come out exchanged, so unless they are equal this is not replace-first.
  */
  lemma {:induction false} OnceReordersFrames(c: Replacer, a: Byte, b: Byte)
    requires c.once && |c.searched| > 0
    ensures var body := [Data(c.searched + [a]), Data([b])];
            && DataOf(Transform(c, body)) == c.replacement + [b] + [a]
            && ReplaceFirst(c.searched, c.replacement, DataOf(body)) == c.replacement + [a] + [b]
  {
    OneByteAfterMatch(c, a);
    OnceTwoFrames(c, c.searched + [a], [b], [Data(c.searched + [a]), Data([b])]);
  }

  lemma {:induction false} OnceTwoFrames(c: Replacer, d: Bytes, e: Bytes, body: seq<Poll>)
    requires c.once && |c.searched| > 0 && Find(c.searched, []).None? && Find(c.searched, d).Some?
    requires body == [Data(d), Data(e)]
    ensures DataOf(Transform(c, body)) == OnceHead(c, d) + e + OnceTail(c, d)
    ensures ReplaceFirst(c.searched, c.replacement, DataOf(body)) == OnceHead(c, d) + OnceTail(c, d) + e
  {
    TwoFrames(d, e);
    OnceOutput(c, body, 0);
    ReplaceFirstExtends(c, d, e);
  }

  lemma {:induction false} TwoFrames(d: Bytes, e: Bytes)
    ensures var body := [Data(d), Data(e)];
            && IsBody(body) && DataOf(body) == d + e
            && DataOf(body[..0]) == [] && DataOf(body[..1]) == d && DataOf(body[1..]) == e
  {
    var body := [Data(d), Data(e)];
    FlatMapOne(DataOfPoll, Data(d));
    FlatMapOne(DataOfPoll, Data(e));
    FlatMapSplit(DataOfPoll, body, 1);
    assert body[..1] == [Data(d)] && body[1..] == [Data(e)];
  }

  lemma {:induction false} OneByteAfterMatch(c: Replacer, a: Byte)
    requires |c.searched| > 0
    ensures Find(c.searched, []).None? && Find(c.searched, c.searched + [a]) == Some(0)
    ensures OnceHead(c, c.searched + [a]) == c.replacement && OnceTail(c, c.searched + [a]) == [a]
  {
    var front := c.searched + [a];
    assert front[0..|c.searched|] == c.searched;
    FindIs(c.searched, front, 0);
    assert front[|c.searched|..] == [a];
    assert Split(c, [a]) == 0;
  }

  /**
  Trailers are not held.  A body that ends in trailers still does so after the replacer exactly when
  the pattern is empty or no data frame came before; else the held tail comes out behind them.
  */
  lemma {:induction false} HeldTailFollowsTrailers(c: Replacer, body: seq<Poll>)
    requires IsBody(body) && body != [] && body[|body| - 1].Trailers?
    ensures var outs, trailers := Transform(c, body), body[|body| - 1];
            && outs != []
            && (outs[|outs| - 1] == trailers <==> |c.searched| == 0 || forall j :: 0 <= j < |body| ==> !body[j].Data?)
            && (outs[|outs| - 1] != trailers ==>
                  && |outs| == |body| + 1 && outs[|outs| - 2] == trailers
                  && outs[|outs| - 1] == Data(Held(Run(c, body).0)))
  {
    RunLength(c, body[..|body| - 1]);
    BufferedIff(c, body);
  }

  lemma {:induction false} RunLength(c: Replacer, body: seq<Poll>)
    ensures |Run(c, body).1| == |body|
  {
    if body != [] { RunLength(c, body[..|body| - 1]); }
  }

  /** Something is held, if only the empty string, exactly when a search has been made. */
  lemma {:induction false} BufferedIff(c: Replacer, body: seq<Poll>)
    requires IsBody(body)
    ensures Run(c, body).0.buffer.Some? <==> |c.searched| > 0 && exists j :: 0 <= j < |body| && body[j].Data?
    ensures Run(c, body).0.replaced ==> Run(c, body).0.buffer.Some?
  {
    if body != [] {
      var n := |body| - 1;
      BufferedIff(c, body[..n]);
      assert body[n].Data? || (forall j :: 0 <= j < |body| && body[j].Data? ==> body[..n][j].Data?);
      if j :| 0 <= j < n && body[..n][j].Data? {
        assert body[j].Data?;
      }
    }
  }
}
