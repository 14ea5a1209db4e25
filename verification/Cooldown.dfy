/**
 The per-key cooldown of backend/proctor/engine.py (`_flag`): what gets persisted, as a
 history, and how densely.
 */
module Cooldown {
  import opened Wrappers
  import opened Geometry

  /** A flag type and the track it is about, if any. */
  datatype Key = HeadPose(trackId: int) | Phone(trackId: int) | ExtraPerson

  datatype Flag = Flag(key: Key, ts: real)

  /** The latest persisted flag of the key, which is what the engine remembers. */
  function LastOf(flags: seq<Flag>, key: Key): Option<real> {
    if flags == [] then None
    else if flags[|flags| - 1].key == key then Some(flags[|flags| - 1].ts)
    else LastOf(flags[..|flags| - 1], key)
  }

  predicate CooledDown(flags: seq<Flag>, key: Key, ts: real, cooldown: real) {
    var last := LastOf(flags, key);
    last.None? || ts - last.value >= cooldown
  }

  /** One request: a flag is added exactly when the key has cooled down and the write is not refused. */
  function Request(flags: seq<Flag>, key: Key, ts: real, cooldown: real, reply: Reply): seq<Flag> {
    if CooledDown(flags, key, ts, cooldown) && reply != Refused then flags + [Flag(key, ts)] else flags
  }

  function RequestAll(flags: seq<Flag>, keys: seq<Key>, ts: real, cooldown: real, reply: Key -> Reply): seq<Flag> {
    if keys == [] then flags
    else
      var key := keys[|keys| - 1];
      Request(RequestAll(flags, keys[..|keys| - 1], ts, cooldown, reply), key, ts, cooldown, reply(key))
  }

  lemma RequestAllSnoc(flags: seq<Flag>, keys: seq<Key>, key: Key, ts: real, cooldown: real, reply: Key -> Reply)
    ensures RequestAll(flags, keys + [key], ts, cooldown, reply)
         == Request(RequestAll(flags, keys, ts, cooldown, reply), key, ts, cooldown, reply(key))
  {
    assert (keys + [key])[..|keys|] == keys;
  }

  /** Every flag of the history was persisted when its key had cooled down. */
  ghost predicate Admitted(flags: seq<Flag>, cooldown: real) {
    forall j :: 0 <= j < |flags| ==> CooledDown(flags[..j], flags[j].key, flags[j].ts, cooldown)
  }

  lemma {:induction false} RequestsKeepAdmitted(flags: seq<Flag>, keys: seq<Key>, ts: real, cooldown: real,
                                                reply: Key -> Reply)
    requires Admitted(flags, cooldown)
    ensures Admitted(RequestAll(flags, keys, ts, cooldown, reply), cooldown)
  {
    hide CooledDown;
    if keys == [] {
    } else {
      RequestsKeepAdmitted(flags, keys[..|keys| - 1], ts, cooldown, reply);
      var before := RequestAll(flags, keys[..|keys| - 1], ts, cooldown, reply);
      var last := Flag(keys[|keys| - 1], ts);
      assert forall j :: 0 <= j < |before| ==> (before + [last])[..j] == before[..j];
      assert (before + [last])[..|before|] == before;
    }
  }

  lemma {:induction false} LastOfIsLatest(flags: seq<Flag>, key: Key, n: nat, i: nat)
    requires i < n <= |flags| && flags[i].key == key
    ensures LastOf(flags[..n], key).Some?
    ensures exists k :: i <= k < n && flags[k].key == key && LastOf(flags[..n], key) == Some(flags[k].ts)
  {
    assert flags[..n][..n - 1] == flags[..n - 1];
    if flags[n - 1].key != key {
      LastOfIsLatest(flags, key, n - 1, i);
    }
  }

  /** Two flags of a key are at least the cooldown apart, in the order they were persisted,
      whatever order the timestamps came in. */
  lemma {:induction false} FlagsAreSpaced(flags: seq<Flag>, cooldown: real, i: nat, j: nat)
    requires Admitted(flags, cooldown) && cooldown >= 0.0
    requires i < j < |flags| && flags[i].key == flags[j].key
    ensures flags[j].ts - flags[i].ts >= cooldown
    decreases j
  {
    LastOfIsLatest(flags, flags[j].key, j, i);
    var k :| i <= k < j && flags[k].key == flags[j].key && LastOf(flags[..j], flags[j].key) == Some(flags[k].ts);
    assert CooledDown(flags[..j], flags[j].key, flags[j].ts, cooldown);
    if i < k {
      FlagsAreSpaced(flags, cooldown, i, k);
    }
  }

  /** Remembering only the latest flag is as good as checking the whole history. */
  lemma LatestIsEnough(flags: seq<Flag>, key: Key, ts: real, cooldown: real)
    requires Admitted(flags, cooldown) && cooldown >= 0.0
    ensures CooledDown(flags, key, ts, cooldown) <==>
      forall i :: 0 <= i < |flags| && flags[i].key == key ==> ts - flags[i].ts >= cooldown
  {
    assert flags[..|flags|] == flags;
    forall i: nat | i < |flags| && flags[i].key == key && CooledDown(flags, key, ts, cooldown)
      ensures ts - flags[i].ts >= cooldown
    {
      LastOfIsLatest(flags, key, |flags|, i);
      var k :| i <= k < |flags| && flags[k].key == key && LastOf(flags, key) == Some(flags[k].ts);
      if i < k {
        FlagsAreSpaced(flags, cooldown, i, k);
      }
    }
    if LastOf(flags, key).Some? {
      LastOfIsOne(flags, key);
    }
  }

  /** Every flag of the key so far is at least the cooldown ago. */
  ghost predicate LongAgo(flags: seq<Flag>, key: Key, ts: real, cooldown: real) {
    forall i :: 0 <= i < |flags| && flags[i].key == key ==> ts - flags[i].ts >= cooldown
  }

  /** A request persists its flag exactly if every flag of the key is at least the cooldown ago
      and the write is not refused; otherwise it changes nothing. */
  lemma RequestPersistsIff(flags: seq<Flag>, key: Key, ts: real, cooldown: real, reply: Reply)
    requires Admitted(flags, cooldown) && cooldown >= 0.0
    ensures Request(flags, key, ts, cooldown, reply)
         == if reply != Refused && LongAgo(flags, key, ts, cooldown) then flags + [Flag(key, ts)] else flags
  {
    LatestIsEnough(flags, key, ts, cooldown);
  }

  /** What the requests of one pass add to the history. */
  ghost function Added(flags: seq<Flag>, keys: seq<Key>, ts: real, cooldown: real, reply: Key -> Reply): seq<Flag> {
    var after := RequestAll(flags, keys, ts, cooldown, reply);
    if |after| >= |flags| then after[|flags|..] else []
  }

  /** The requests of a pass only add flags, of requested keys and with the time of the pass; and a
      key gets one exactly if it was requested, its write is not refused, and its flags before the
      pass are all at least the cooldown ago. */
  lemma {:induction false} PassPersists(flags: seq<Flag>, keys: seq<Key>, ts: real, cooldown: real,
                                        reply: Key -> Reply)
    requires Admitted(flags, cooldown)
    ensures RequestAll(flags, keys, ts, cooldown, reply) == flags + Added(flags, keys, ts, cooldown, reply)
    ensures forall f :: f in Added(flags, keys, ts, cooldown, reply) ==> f.key in keys && f.ts == ts
    ensures cooldown >= 0.0 ==>
      forall key :: Flag(key, ts) in Added(flags, keys, ts, cooldown, reply) <==>
        key in keys && reply(key) != Refused && LongAgo(flags, key, ts, cooldown)
  {
    hide Admitted, CooledDown, Request, LongAgo;
    if keys == [] {
      assert RequestAll(flags, keys, ts, cooldown, reply) == flags;
    } else {
      var n := |keys| - 1;
      var front, last := keys[..n], keys[n];
      PassPersists(flags, front, ts, cooldown, reply);
      RequestsKeepAdmitted(flags, front, ts, cooldown, reply);
      var mid, added := RequestAll(flags, front, ts, cooldown, reply), Added(flags, front, ts, cooldown, reply);
      assert RequestAll(flags, keys, ts, cooldown, reply) == Request(mid, last, ts, cooldown, reply(last));
      hide RequestAll;
      RequestAddsOne(mid, last, ts, cooldown, reply(last));
      assert keys == front + [last];
      if cooldown >= 0.0 {
        RequestPersistsIff(mid, last, ts, cooldown, reply(last));
        if Flag(last, ts) !in added {
          AddedAreNow(flags, added, last, ts, cooldown);
        }
      }
      var after := RequestAll(flags, keys, ts, cooldown, reply);
      assert after[|flags|..] == if after == mid then added else added + [Flag(last, ts)];
    }
  }

  lemma RequestAddsOne(flags: seq<Flag>, key: Key, ts: real, cooldown: real, reply: Reply)
    ensures Request(flags, key, ts, cooldown, reply) == flags
         || Request(flags, key, ts, cooldown, reply) == flags + [Flag(key, ts)]
  {
  }

  /** Flags of this pass do not stand in the way of another key's. */
  lemma AddedAreNow(flags: seq<Flag>, added: seq<Flag>, key: Key, ts: real, cooldown: real)
    requires (forall f :: f in added ==> f.ts == ts) && Flag(key, ts) !in added
    ensures LongAgo(flags + added, key, ts, cooldown) <==> LongAgo(flags, key, ts, cooldown)
  {
    var all := flags + added;
    assert forall i :: 0 <= i < |flags| ==> all[i] == flags[i];
    forall i | |flags| <= i < |all|
      ensures all[i].key != key
    {
      assert all[i] == added[i - |flags|] && all[i] in added;
    }
  }

  lemma {:induction false} LastOfIsOne(flags: seq<Flag>, key: Key)
    requires LastOf(flags, key).Some?
    ensures exists k :: 0 <= k < |flags| && flags[k].key == key && LastOf(flags, key) == Some(flags[k].ts)
  {
    if flags[|flags| - 1].key != key {
      var front := flags[..|flags| - 1];
      LastOfIsOne(front, key);
      var k :| 0 <= k < |front| && front[k].key == key && LastOf(front, key) == Some(front[k].ts);
      assert flags[k] == front[k];
    }
  }

  // ---------- Rate ----------

  ghost predicate InSpan(f: Flag, key: Key, from: real, length: real) {
    f.key == key && from <= f.ts <= from + length
  }

  ghost function CountIn(flags: seq<Flag>, key: Key, from: real, length: real): nat {
    if flags == [] then 0
    else CountIn(flags[..|flags| - 1], key, from, length)
         + if InSpan(flags[|flags| - 1], key, from, length) then 1 else 0
  }

  /** `m` cooldowns end to end. */
  ghost function Stretch(m: int, cooldown: real): real {
    m as real * cooldown
  }

  lemma StretchGrows(m: int, cooldown: real)
    ensures Stretch(0, cooldown) == 0.0 && Stretch(m + 1, cooldown) == Stretch(m, cooldown) + cooldown
  {
    assert (m + 1) as real == m as real + 1.0;
  }

  /** With m flags of the key in the span, the outer two are m - 1 cooldowns apart. */
  lemma {:induction false} OuterFlags(flags: seq<Flag>, key: Key, cooldown: real, from: real, length: real, n: nat)
    returns (i: nat, j: nat)
    requires Admitted(flags, cooldown) && cooldown >= 0.0 && n <= |flags|
    requires CountIn(flags[..n], key, from, length) > 0
    ensures i <= j < n && InSpan(flags[i], key, from, length) && InSpan(flags[j], key, from, length)
    ensures flags[j].ts - flags[i].ts >= Stretch(CountIn(flags[..n], key, from, length) - 1, cooldown)
  {
    hide Admitted, Stretch;
    assert flags[..n][..n - 1] == flags[..n - 1];
    var m := CountIn(flags[..n - 1], key, from, length);
    if !InSpan(flags[n - 1], key, from, length) {
      i, j := OuterFlags(flags, key, cooldown, from, length, n - 1);
    } else if m == 0 {
      i, j := n - 1, n - 1;
      StretchGrows(0, cooldown);
    } else {
      i, j := OuterFlags(flags, key, cooldown, from, length, n - 1);
      FlagsAreSpaced(flags, cooldown, j, n - 1);
      j := n - 1;
      StretchGrows(m - 1, cooldown);
    }
  }

  /** Any span of the given length holds at most floor(length / cooldown) + 1 flags of a key. */
  lemma FlagRate(flags: seq<Flag>, key: Key, cooldown: real, from: real, length: real)
    requires Admitted(flags, cooldown) && cooldown > 0.0 && length >= 0.0
    ensures CountIn(flags, key, from, length) <= (length / cooldown).Floor + 1
  {
    hide Admitted, Stretch, CountIn;
    var m := CountIn(flags, key, from, length);
    assert flags[..|flags|] == flags;
    StretchGrows(0, cooldown);
    if m > 0 {
      var i, j := OuterFlags(flags, key, cooldown, from, length, |flags|);
      WholeCooldownsFit(m - 1, cooldown, length);
    } else {
      WholeCooldownsFit(0, cooldown, length);
    }
  }

  lemma WholeCooldownsFit(m: nat, cooldown: real, length: real)
    requires cooldown > 0.0 && Stretch(m, cooldown) <= length
    ensures m <= (length / cooldown).Floor
  {
    var q := length / cooldown;
    assert q * cooldown == length;
    assert (q - m as real) * cooldown >= 0.0;
    SignOfFactor(q - m as real, cooldown);
  }
}
