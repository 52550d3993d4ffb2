/** Environment variables merged into the operator's Subscription. */
module SubscriptionEnv {
  import opened Wrappers
  import opened OcpConfig

  /** An entry that sets the variable. */
  predicate Sets(entry: Value, name: string) { entry.Fields? && Get(entry.fields, "name") == Str(name) }

  /** With this value and no other source. */
  predicate HasValue(entry: Value, value: string) {
    entry.Fields? && Get(entry.fields, "value") == Str(value) && Get(entry.fields, "valueFrom") == Null
  }

  /** The variable is set, and everywhere to the value. */
  ghost predicate Settled(env: seq<Value>, name: string, value: string) {
    (exists i :: 0 <= i < |env| && Sets(env[i], name)) && forall i :: 0 <= i < |env| && Sets(env[i], name) ==> HasValue(env[i], value)
  }

  function NewEntry(name: string, value: string): Value { Fields(map["name" := Str(name), "value" := Str(value)]) }

  /** The entry with its value put right; entries for other variables as they are. */
  function Corrected(entry: Value, name: string, value: string): Value {
    if Sets(entry, name) && !HasValue(entry, value)
    then Fields((entry.fields - {"valueFrom"})["value" := Str(value)]) else entry
  }

  /** One variable merged: every entry corrected, one appended if none sets it. */
  ghost predicate OneMerged(env: seq<Value>, env': seq<Value>, name: string, value: string) {
    && |env'| == |env| + (if exists i :: 0 <= i < |env| && Sets(env[i], name) then 0 else 1)
    && (forall i :: 0 <= i < |env| ==> env'[i] == Corrected(env[i], name, value))
    && (|env'| > |env| ==> env'[|env|] == NewEntry(name, value))
  }

  method MergeVariable(env: seq<Value>, name: string, value: string) returns (env': seq<Value>, changed: bool)
    ensures OneMerged(env, env', name, value)
    ensures changed <==> !Settled(env, name, value)
  {
    env', changed := env, false;
    var found := false;
    for i := 0 to |env|
      invariant |env'| == |env| && forall j :: i <= j < |env| ==> env'[j] == env[j]
      invariant forall j :: 0 <= j < i ==> env'[j] == Corrected(env[j], name, value)
      invariant found <==> exists j :: 0 <= j < i && Sets(env[j], name)
      invariant changed <==> exists j :: 0 <= j < i && Sets(env[j], name) && !HasValue(env[j], value)
    {
      var entry := env'[i];
      if !entry.Fields? || Get(entry.fields, "name") != Str(name) { continue; }
      found := true;
      if Get(entry.fields, "value") != Str(value) || Get(entry.fields, "valueFrom") != Null {
        env' := env'[i := Fields((entry.fields - {"valueFrom"})["value" := Str(value)])];
        changed := true;
      }
    }
    if !found {
      env' := env' + [NewEntry(name, value)];
      changed := true;
    }
  }

  /** A merged variable is settled, and merging one variable leaves the others as settled
      as they were. */
  lemma MergedIsSettled(env: seq<Value>, env': seq<Value>, name: string, value: string)
    requires OneMerged(env, env', name, value)
    ensures Settled(env', name, value)
    ensures forall i :: 0 <= i < |env| ==> forall other :: Sets(env'[i], other) <==> Sets(env[i], other)
    ensures forall other, v :: other != name ==> (Settled(env', other, v) <==> Settled(env, other, v))
    ensures Settled(env, name, value) ==> env' == env
  {
    hide Settled, OneMerged;
    EntriesMerged(env, env', name, value);
    forall other, v | other != name ensures Settled(env', other, v) <==> Settled(env, other, v) {
      OthersSettled(env, env', name, value, other, v);
    }
    AlreadySettled(env, env', name, value);
  }

  lemma EntriesMerged(env: seq<Value>, env': seq<Value>, name: string, value: string)
    requires OneMerged(env, env', name, value)
    ensures Settled(env', name, value)
    ensures forall i :: 0 <= i < |env| ==> forall other :: Sets(env'[i], other) <==> Sets(env[i], other)
  {
    assert Sets(NewEntry(name, value), name) && HasValue(NewEntry(name, value), value);
    forall i | 0 <= i < |env| ensures Sets(env'[i], name) <==> Sets(env[i], name) {}
    if i :| 0 <= i < |env| && Sets(env[i], name) { assert Sets(env'[i], name); } else { assert Sets(env'[|env|], name); }
  }

  lemma OthersSettled(env: seq<Value>, env': seq<Value>, name: string, value: string, other: string, v: string)
    requires OneMerged(env, env', name, value) && other != name
    ensures Settled(env', other, v) <==> Settled(env, other, v)
  {
    forall i | 0 <= i < |env| ensures Sets(env'[i], other) <==> Sets(env[i], other) {}
    forall i | 0 <= i < |env| && Sets(env[i], other) ensures env'[i] == env[i] {}
    assert !Sets(NewEntry(name, value), other);
    if i :| 0 <= i < |env| && Sets(env[i], other) { assert Sets(env'[i], other); }
  }

  lemma AlreadySettled(env: seq<Value>, env': seq<Value>, name: string, value: string)
    requires OneMerged(env, env', name, value)
    ensures Settled(env, name, value) ==> env' == env
  {}

  ghost predicate AllSettled(env: seq<Value>, desired: map<string, string>) {
    forall n :: n in desired ==> Settled(env, n, desired[n])
  }

  /** The loops of mergeSubscriptionEnvChanged over one read of the Subscription. Nothing
      is changed exactly when every variable was settled; afterwards all are, so a second
      merge reports no change. Existing entries keep their place and their variable. */
  method MergeEnv(env: seq<Value>, desired: map<string, string>) returns (env': seq<Value>, changed: bool)
    ensures AllSettled(env', desired)
    ensures changed <==> !AllSettled(env, desired)
    ensures !changed ==> env' == env
    ensures |env| <= |env'| && forall i :: 0 <= i < |env| ==> Touches(env[i], env'[i], desired)
  {
    hide Settled, OneMerged;
    env', changed := env, false;
    var todo := desired.Keys;
    while todo != {}
      invariant todo <= desired.Keys && (!changed ==> env' == env)
      invariant forall n :: n in desired && n !in todo ==> Settled(env', n, desired[n])
      invariant forall n :: n in todo ==> (Settled(env', n, desired[n]) <==> Settled(env, n, desired[n]))
      invariant changed <==> exists n :: n in desired && n !in todo && !Settled(env, n, desired[n])
      invariant |env| <= |env'| && forall i :: 0 <= i < |env| ==> Touches(env[i], env'[i], desired)
    {
      var name :| name in todo;
      var merged, here := MergeVariable(env', name, desired[name]);
      MergedIsSettled(env', merged, name, desired[name]);
      EntriesTouched(env, env', merged, name, desired);
      env', changed := merged, changed || here;
      todo := todo - {name};
    }
  }

  /** An entry is left alone unless it sets a wanted variable to something else; then only
      its value and valueFrom change. */
  ghost predicate Touches(before: Value, after: Value, desired: map<string, string>) {
    before == after
    || (exists n :: n in desired && Sets(before, n) && !HasValue(before, desired[n]) && after == Corrected(before, n, desired[n]))
  }

  lemma EntriesTouched(env: seq<Value>, now: seq<Value>, next: seq<Value>, name: string, desired: map<string, string>)
    requires |env| <= |now| && forall i :: 0 <= i < |env| ==> Touches(env[i], now[i], desired)
    requires name in desired && OneMerged(now, next, name, desired[name])
    ensures |env| <= |next| && forall i :: 0 <= i < |env| ==> Touches(env[i], next[i], desired)
  {
    hide Touches;
    forall i | 0 <= i < |env| ensures Touches(env[i], next[i], desired) {
      TouchedAgain(env[i], now[i], name, desired);
    }
  }

  lemma TouchedAgain(before: Value, now: Value, name: string, desired: map<string, string>)
    requires name in desired && Touches(before, now, desired)
    ensures Touches(before, Corrected(now, name, desired[name]), desired)
  {
    if before != now {
      var n :| n in desired && Sets(before, n) && !HasValue(before, desired[n]) && now == Corrected(before, n, desired[n]);
      assert Sets(now, n) && HasValue(now, desired[n]);
    } else if Sets(now, name) && !HasValue(now, desired[name]) {
      assert Corrected(now, name, desired[name]) == Corrected(before, name, desired[name]);
    }
  }

  /** Every entry that names the variable ends up with the value and no other source, its
      other fields as they were; other entries are left alone, and a variable no entry
      names gets one. */
  lemma OnlyValueChanges(env: seq<Value>, env': seq<Value>, name: string, value: string)
    requires OneMerged(env, env', name, value)
    ensures forall i :: 0 <= i < |env| ==>
              if env[i].Fields? && Get(env[i].fields, "name") == Str(name)
              then env'[i].Fields? && Get(env'[i].fields, "value") == Str(value) && Get(env'[i].fields, "valueFrom") == Null
                   && forall key :: key !in {"value", "valueFrom"} ==> Get(env'[i].fields, key) == Get(env[i].fields, key)
              else env'[i] == env[i]
    ensures (forall i :: 0 <= i < |env| ==> !(env[i].Fields? && Get(env[i].fields, "name") == Str(name))) ==>
              |env'| == |env| + 1 && env'[|env|].Fields?
              && Get(env'[|env|].fields, "name") == Str(name) && Get(env'[|env|].fields, "value") == Str(value)
  {
    forall i | 0 <= i < |env| && Sets(env[i], name)
      ensures env'[i].Fields? && HasValue(env'[i], value)
              && forall key :: key !in {"value", "valueFrom"} ==> Get(env'[i].fields, key) == Get(env[i].fields, key)
    {
      assert env'[i] == Corrected(env[i], name, value);
    }
  }
}
