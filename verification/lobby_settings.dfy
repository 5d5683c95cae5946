/** The settings both lobby classes build: the defaults overridden by the caller's keys. */
module LobbyDefaults {
  import opened Wrappers
  import opened JsValue
  import opened Actions

  /** `getDefaultSettings()`. */
  function DefaultSettings(): (m: map<string, Value>)
    ensures SettingsOf(m) == Some(LobbySettings(8, Medium))
    ensures m.Keys == {"winScore", "difficulty"}
  {
    map["winScore" := Num(8), "difficulty" := Str("medium")]
  }

  /** The properties a settings argument contributes: none unless `typeof` says "object". */
  function OwnSettings(settings: Value): map<string, Value> {
    if TypeOf(settings) == "object" then Spread(settings) else map[]
  }

  /** `{ ...defaultSettings, ...settings }` after a non-object argument was replaced by `{}`. */
  function MergeSettings(settings: Value): (m: map<string, Value>)
    ensures m.Keys == DefaultSettings().Keys + OwnSettings(settings).Keys
    ensures forall k :: k in OwnSettings(settings) ==> m[k] == OwnSettings(settings)[k]
    ensures forall k :: k in DefaultSettings() && k !in OwnSettings(settings) ==> m[k] == DefaultSettings()[k]
  {
    DefaultSettings() + OwnSettings(settings)
  }

  /** An argument that is not an object, or `null`, leaves exactly the defaults. */
  lemma NonObjectGivesDefaults(settings: Value)
    requires !settings.Obj? && !settings.Arr?
    ensures MergeSettings(settings) == DefaultSettings()
  {
  }

  /** A complete typed settings object replaces both defaults. */
  lemma FullSettingsOverride(s: LobbySettings)
    ensures MergeSettings(Obj(SettingsProps(s))) == SettingsProps(s)
    ensures SettingsOf(MergeSettings(Obj(SettingsProps(s)))) == Some(s)
  {
    assert MergeSettings(Obj(SettingsProps(s))).Keys == SettingsProps(s).Keys;
  }

  /** Overriding one key keeps the other default. */
  lemma WinScoreOverride(n: int)
    ensures SettingsOf(MergeSettings(Obj(map["winScore" := Num(n)]))) == Some(LobbySettings(n, Medium))
  {
    var m := MergeSettings(Obj(map["winScore" := Num(n)]));
    assert m["winScore"] == Num(n);
    assert m["difficulty"] == Str("medium");
  }
}
