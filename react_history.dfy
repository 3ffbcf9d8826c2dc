/** The React dashboard (frontend_react/src/App.jsx): the history object
    kept in component state and the reducer that `fetchTelemetry` hands to
    `setHistory` on every tick. */
module ReactHistory {
  import opened Common
  import opened Js
  import ScriptHistory

  /** `slice(-30)`: each series keeps its last 30 readings. */
  const CAP: nat := 30

  /** The state object: series name to array of readings. */
  type History = map<string, seq<JsValue>>

  /** The series names of the initial state. */
  const SERIES: set<string> := {"temp", "gas", "rad", "pressure"}

  /** The keys the reducer's `forEach` walks, in order. */
  const TICK_KEYS: seq<string> := ["temp", "gas", "radiation", "pressure"]

  /** `useState({ temp: [], gas: [], rad: [], pressure: [] })`. */
  function InitialHistory(): (h: History)
    ensures h.Keys == SERIES
    ensures forall k | k in h :: h[k] == []
  {
    map["temp" := [], "gas" := [], "rad" := [], "pressure" := []]
  }

  /** The field read for a walked key: `key === 'rad' ? 'radiation' : key`. */
  function ReadKey(key: string): string
  {
    if key == "rad" then "radiation" else key
  }

  /** The series written for a walked key: `key === 'radiation' ? 'rad' : key`. */
  function WriteKey(key: string): string
  {
    if key == "radiation" then "rad" else key
  }

  /** What one `forEach` step writes for `key`, if anything: the previous
      series (from `prev`, not from the copy) with the reading appended and
      cut to the last CAP elements; nothing when the reading is `undefined`. */
  function Written(prev: History, data: map<string, JsValue>, key: string): Option<seq<JsValue>>
    requires Reachable(prev, data, key)
  {
    var val := Get(data, ReadKey(key));
    if val != Undefined then Some(LastN(prev[WriteKey(key)] + [val], CAP)) else None
  }

  /** Spreading `prev[...]` throws unless that series exists; the spread is
      evaluated only for a reading that is not `undefined`. */
  predicate Reachable(prev: History, data: map<string, JsValue>, key: string)
  {
    Get(data, ReadKey(key)) != Undefined ==> WriteKey(key) in prev
  }

  predicate AllReachable(prev: History, data: map<string, JsValue>, keys: seq<string>)
  {
    forall i :: 0 <= i < |keys| ==> Reachable(prev, data, keys[i])
  }

  /** One step of the `forEach` on the copy `acc`. */
  function Step(prev: History, data: map<string, JsValue>, acc: History, key: string): History
    requires Reachable(prev, data, key)
  {
    match Written(prev, data, key)
    case Some(s) => acc[WriteKey(key) := s]
    case None => acc
  }

  /** The `forEach` over `keys`, starting from the copy `acc`. */
  function Fill(prev: History, data: map<string, JsValue>, acc: History, keys: seq<string>): History
    requires AllReachable(prev, data, keys)
    decreases |keys|
  {
    if |keys| == 0 then acc
    else Fill(prev, data, Step(prev, data, acc, keys[0]), keys[1..])
  }

  /** The reducer: `prev => { const newHistory = { ...prev }; forEach ...; return newHistory; }`.
      It never adds or drops a series: every series it writes already
      existed (else the spread would have thrown). */
  function NextHistory(prev: History, data: map<string, JsValue>): (r: History)
    requires AllReachable(prev, data, TICK_KEYS)
    ensures r.Keys == prev.Keys
  {
    FillKeys(prev, data, prev, TICK_KEYS);
    Fill(prev, data, prev, TICK_KEYS)
  }

  /** Starting from a copy that holds every series of `prev`, the walk
      keeps the copy's set of series. */
  lemma {:induction false} FillKeys(prev: History, data: map<string, JsValue>, acc: History, keys: seq<string>)
    requires AllReachable(prev, data, keys)
    requires prev.Keys <= acc.Keys
    ensures Fill(prev, data, acc, keys).Keys == acc.Keys
    decreases |keys|
  {
    if |keys| > 0 {
      assert Reachable(prev, data, keys[0]);
      FillKeys(prev, data, Step(prev, data, acc, keys[0]), keys[1..]);
    }
  }

  /** A series no walked key writes keeps whatever the copy held. */
  lemma {:induction false} FillOther(prev: History, data: map<string, JsValue>, acc: History, keys: seq<string>, hk: string)
    requires AllReachable(prev, data, keys)
    requires forall i :: 0 <= i < |keys| ==> WriteKey(keys[i]) != hk
    ensures hk in Fill(prev, data, acc, keys) <==> hk in acc
    ensures hk in acc ==> Fill(prev, data, acc, keys)[hk] == acc[hk]
    decreases |keys|
  {
    if |keys| > 0 {
      FillOther(prev, data, Step(prev, data, acc, keys[0]), keys[1..], hk);
    }
  }

  /** The series written by the walked key `keys[i]`, when no other walked
      key writes the same series, is what that one step wrote, or else what
      the copy held. */
  lemma {:induction false} FillAt(prev: History, data: map<string, JsValue>, acc: History, keys: seq<string>, i: nat)
    requires AllReachable(prev, data, keys)
    requires i < |keys|
    requires forall j :: 0 <= j < |keys| && j != i ==> WriteKey(keys[j]) != WriteKey(keys[i])
    ensures Written(prev, data, keys[i]).Some? ==>
      WriteKey(keys[i]) in Fill(prev, data, acc, keys) &&
      Fill(prev, data, acc, keys)[WriteKey(keys[i])] == Written(prev, data, keys[i]).value
    ensures Written(prev, data, keys[i]).None? ==>
      (WriteKey(keys[i]) in Fill(prev, data, acc, keys) <==> WriteKey(keys[i]) in acc) &&
      (WriteKey(keys[i]) in acc ==> Fill(prev, data, acc, keys)[WriteKey(keys[i])] == acc[WriteKey(keys[i])])
    decreases |keys|
  {
    var next := Step(prev, data, acc, keys[0]);
    if i == 0 {
      FillOther(prev, data, next, keys[1..], WriteKey(keys[0]));
    } else {
      FillAt(prev, data, next, keys[1..], i - 1);
    }
  }

  /** The reading field that feeds each series of the state, if any. */
  function Source(series: string): Option<string>
  {
    if series == "temp" || series == "gas" || series == "pressure" then Some(series)
    else if series == "rad" then Some("radiation")
    else None
  }

  /** The reducer, entry by entry: a series fed by a reading that is not
      `undefined` becomes the last CAP elements of its previous array with
      the reading appended (so a reading of 0 is recorded); every other
      entry, including any key outside the four series, is the previous
      array unchanged. The radiation reading goes to `rad`. */
  lemma NextHistoryAt(prev: History, data: map<string, JsValue>, hk: string)
    requires AllReachable(prev, data, TICK_KEYS)
    ensures hk in NextHistory(prev, data) <==>
      hk in prev || (Source(hk).Some? && Get(data, Source(hk).value) != Undefined)
    ensures Source(hk).Some? && Get(data, Source(hk).value) != Undefined ==>
      hk in prev && NextHistory(prev, data)[hk] == LastN(prev[hk] + [Get(data, Source(hk).value)], CAP)
    ensures !(Source(hk).Some? && Get(data, Source(hk).value) != Undefined) && hk in prev ==>
      NextHistory(prev, data)[hk] == prev[hk]
  {
    var keys := TICK_KEYS;
    assert WriteKey(keys[0]) == "temp" && WriteKey(keys[1]) == "gas";
    assert WriteKey(keys[2]) == "rad" && WriteKey(keys[3]) == "pressure";
    assert ReadKey(keys[0]) == "temp" && ReadKey(keys[1]) == "gas";
    assert ReadKey(keys[2]) == "radiation" && ReadKey(keys[3]) == "pressure";
    if hk == "temp" {
      FillAt(prev, data, prev, keys, 0);
    } else if hk == "gas" {
      FillAt(prev, data, prev, keys, 1);
    } else if hk == "rad" {
      FillAt(prev, data, prev, keys, 2);
    } else if hk == "pressure" {
      FillAt(prev, data, prev, keys, 3);
    } else {
      FillOther(prev, data, prev, keys, hk);
    }
  }

  /** After any update, every one of the four series that exists holds at
      most 30 readings and ends with the newest defined reading; the
      initial state therefore stays within the cap forever. */
  lemma NextHistoryCapped(prev: History, data: map<string, JsValue>)
    requires AllReachable(prev, data, TICK_KEYS)
    requires forall k | k in SERIES :: k in prev && |prev[k]| <= CAP
    ensures forall k | k in SERIES :: k in NextHistory(prev, data) && |NextHistory(prev, data)[k]| <= CAP
    ensures forall k | k in SERIES && Get(data, Source(k).value) != Undefined ::
      |NextHistory(prev, data)[k]| > 0 &&
      NextHistory(prev, data)[k][|NextHistory(prev, data)[k]| - 1] == Get(data, Source(k).value)
  {
    forall k | k in SERIES
      ensures k in NextHistory(prev, data) && |NextHistory(prev, data)[k]| <= CAP
      ensures Get(data, Source(k).value) != Undefined ==>
        |NextHistory(prev, data)[k]| > 0 &&
        NextHistory(prev, data)[k][|NextHistory(prev, data)[k]| - 1] == Get(data, Source(k).value)
    {
      NextHistoryAt(prev, data, k);
      if Get(data, Source(k).value) != Undefined {
        LastNAppend(prev[k], Get(data, Source(k).value), CAP);
      }
    }
  }

  /** Every state the dashboard reaches from the initial one has the four
      series, each within the cap. */
  predicate WellFormed(h: History)
  {
    forall k | k in SERIES :: k in h && |h[k]| <= CAP
  }

  lemma InitialWellFormed()
    ensures WellFormed(InitialHistory())
  {
  }

  lemma NextWellFormed(prev: History, data: map<string, JsValue>)
    requires WellFormed(prev)
    ensures AllReachable(prev, data, TICK_KEYS)
    ensures WellFormed(NextHistory(prev, data))
  {
    assert forall i :: 0 <= i < |TICK_KEYS| ==> WriteKey(TICK_KEYS[i]) in SERIES;
    NextHistoryCapped(prev, data);
  }

  /** A series of numbers as the values the reducer stores. */
  function Nums(s: seq<real>): (r: seq<JsValue>)
    ensures |r| == |s| && forall i :: 0 <= i < |s| ==> r[i] == Num(s[i])
  {
    seq(|s|, i requires 0 <= i < |s| => Num(s[i]))
  }

  /** The two dashboards agree on a non-zero temperature: when the React
      series holds the same numbers as the vanilla-JavaScript one, both
      record the reading and keep the same last 30. */
  lemma AgreesWithScriptOnNonZero(prev: History, data: map<string, JsValue>, s: seq<real>, v: real)
    requires WellFormed(prev) && prev["temp"] == Nums(s)
    requires Get(data, "temp") == Num(v) && v != 0.0
    ensures AllReachable(prev, data, TICK_KEYS)
    ensures NextHistory(prev, data)["temp"] == Nums(ScriptHistory.Appended(s, Num(v)))
  {
    NextWellFormed(prev, data);
    NextHistoryAt(prev, data, "temp");
    assert |s| <= CAP;
    NumsLastN(s, v, CAP);
  }

  lemma NumsLastN(s: seq<real>, v: real, n: nat)
    ensures LastN(Nums(s) + [Num(v)], n) == Nums(LastN(s + [v], n))
  {
    assert Nums(s) + [Num(v)] == Nums(s + [v]);
  }

  /** They differ on a reading of 0: the reducer appends it (it only skips
      `undefined`), while the vanilla page skips every falsy reading. */
  lemma DiffersFromScriptOnZero(prev: History, data: map<string, JsValue>, s: seq<real>)
    requires WellFormed(prev) && Get(data, "temp") == Num(0.0)
    ensures AllReachable(prev, data, TICK_KEYS)
    ensures NextHistory(prev, data)["temp"] == LastN(prev["temp"] + [Num(0.0)], CAP)
    ensures ScriptHistory.Appended(s, Num(0.0)) == s
  {
    NextWellFormed(prev, data);
    NextHistoryAt(prev, data, "temp");
  }
}
