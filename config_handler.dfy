/**
 * The configuration handlers of the sensor node: save a parsed JSON body
 * into the Preferences store (salvarConfiguracoes), read the eleven settings
 * back as a reply (recuperarConfiguracoes), and restore the factory defaults
 * (resetarConfiguracoes).
 */
module ConfigHandler {
  import opened Wrappers
  import opened Nvs

  /** A parsed JSON value, as far as the handlers look into it. */
  datatype JsonValue = JString(s: string) | JObject(members: map<string, JsonValue>) | JOther

  /** An HTTP reply whose body is a flat JSON object of string members, in order. */
  datatype Reply = Reply(status: int, contentType: string, body: seq<(string, string)>)

  const JSON: string := "application/json"
  const CONFIG_SALVA: string := "configSalva"

  /** The settings in the order of the recuperar reply. */
  const KEYS: seq<string> := ["ssid", "senha", "ipServidor", "portaServidor", "token",
                              "inicioZona1", "fimZona1", "inicioZona2", "fimZona2", "inicioZona3", "fimZona3"]

  /** The factory default of each setting. */
  const DEFAULTS: map<string, string> := map[
    "ssid" := "CLARO_D4D094", "senha" := "NYJmv24gGv", "ipServidor" := "192.168.1.1",
    "portaServidor" := "8080", "token" := "default_token",
    "inicioZona1" := "10", "fimZona1" := "20", "inicioZona2" := "20",
    "fimZona2" := "30", "inicioZona3" := "30", "fimZona3" := "40"]

  /** The JSON member salvar reads each setting from. */
  const JSON_NAMES: map<string, string> := map[
    "ssid" := "ssid", "senha" := "senha", "ipServidor" := "ip-servidor",
    "portaServidor" := "porta-servidor", "token" := "token",
    "inicioZona1" := "inicio-zona-1", "fimZona1" := "fim-zona-1", "inicioZona2" := "inicio-zona-2",
    "fimZona2" := "fim-zona-2", "inicioZona3" := "inicio-zona-3", "fimZona3" := "fim-zona-3"]

  /** `document[name] | ""`: the member's text when it is a string, otherwise "". */
  function Field(document: JsonValue, name: string): string
  {
    if document.JObject? && name in document.members && document.members[name].JString?
    then document.members[name].s
    else ""
  }

  /** A missing member or a member that is not a string reads as ""; a string
      member reads as its text, so a non-empty field was sent as that string. */
  lemma FieldMeaning(document: JsonValue, name: string)
    ensures !(document.JObject? && name in document.members) ==> Field(document, name) == ""
    ensures document.JObject? && name in document.members ==>
      (document.members[name].JString? <==> document.members[name] == JString(Field(document, name)))
    ensures Field(document, name) != "" ==>
      document.JObject? && name in document.members && document.members[name] == JString(Field(document, name))
  {
  }

  /** The configSalva flag as recuperar reads it (absent means false). */
  predicate Saved(m: Store)
  {
    BoolOr(m, CONFIG_SALVA, false)
  }

  /** The store after resetar: every setting at its default, configSalva false,
      every other key untouched. */
  function Reset(m: Store): Store
  {
    map k | k in m.Keys + DEFAULTS.Keys + {CONFIG_SALVA} ::
      if k == CONFIG_SALVA then BoolEntry(false)
      else if k in DEFAULTS then StringEntry(DEFAULTS[k])
      else m[k]
  }

  /** The store after a successful salvar: every setting taken from its JSON
      member, configSalva true, every other key untouched. */
  function Save(m: Store, document: JsonValue): Store
  {
    map k | k in m.Keys + JSON_NAMES.Keys + {CONFIG_SALVA} ::
      if k == CONFIG_SALVA then BoolEntry(true)
      else if k in JSON_NAMES then StringEntry(Field(document, JSON_NAMES[k]))
      else m[k]
  }

  /** The store after recuperar: reset first unless a configuration was saved. */
  function RecoverState(m: Store): Store
  {
    if Saved(m) then m else Reset(m)
  }

  /** The configuration the recuperar reply carries: each setting as stored, or
      its default. */
  function Recovered(m: Store): seq<(string, string)>
  {
    seq(|KEYS|, i requires 0 <= i < |KEYS| =>
      (KEYS[i], StringOr(m, KEYS[i], if KEYS[i] in DEFAULTS then DEFAULTS[KEYS[i]] else "")))
  }

  /** The members of the JSON object a reply body serialises to. */
  function Members(body: seq<(string, string)>): map<string, JsonValue>
  {
    if body == [] then map[]
    else Members(body[..|body| - 1])[body[|body| - 1].0 := JString(body[|body| - 1].1)]
  }

  /** The puts of resetarConfiguracoes, in order. */
  function ResetPuts(m: Store): Store
  {
    m["ssid" := StringEntry("CLARO_D4D094")]["senha" := StringEntry("NYJmv24gGv")]
     ["ipServidor" := StringEntry("192.168.1.1")]["portaServidor" := StringEntry("8080")]
     ["token" := StringEntry("default_token")]["inicioZona1" := StringEntry("10")]
     ["fimZona1" := StringEntry("20")]["inicioZona2" := StringEntry("20")]
     ["fimZona2" := StringEntry("30")]["inicioZona3" := StringEntry("30")]
     ["fimZona3" := StringEntry("40")][CONFIG_SALVA := BoolEntry(false)]
  }

  /** The puts of a successful salvarConfiguracoes, in order. */
  function SavePuts(m: Store, d: JsonValue): Store
  {
    m["ssid" := StringEntry(Field(d, "ssid"))]["senha" := StringEntry(Field(d, "senha"))]
     ["ipServidor" := StringEntry(Field(d, "ip-servidor"))]["portaServidor" := StringEntry(Field(d, "porta-servidor"))]
     ["token" := StringEntry(Field(d, "token"))]["inicioZona1" := StringEntry(Field(d, "inicio-zona-1"))]
     ["fimZona1" := StringEntry(Field(d, "fim-zona-1"))]["inicioZona2" := StringEntry(Field(d, "inicio-zona-2"))]
     ["fimZona2" := StringEntry(Field(d, "fim-zona-2"))]["inicioZona3" := StringEntry(Field(d, "inicio-zona-3"))]
     ["fimZona3" := StringEntry(Field(d, "fim-zona-3"))][CONFIG_SALVA := BoolEntry(true)]
  }

  lemma ResetPutsAreReset(m: Store)
    ensures ResetPuts(m) == Reset(m)
  {
  }

  lemma SavePutsAreSave(m: Store, d: JsonValue)
    ensures SavePuts(m, d) == Save(m, d)
  {
  }

  /** The recuperar reply lists the settings in order, each with the default
      resetar writes. */
  lemma RecoveredInOrder(m: Store)
    ensures Recovered(m) == [
      ("ssid", StringOr(m, "ssid", "CLARO_D4D094")), ("senha", StringOr(m, "senha", "NYJmv24gGv")),
      ("ipServidor", StringOr(m, "ipServidor", "192.168.1.1")), ("portaServidor", StringOr(m, "portaServidor", "8080")),
      ("token", StringOr(m, "token", "default_token")), ("inicioZona1", StringOr(m, "inicioZona1", "10")),
      ("fimZona1", StringOr(m, "fimZona1", "20")), ("inicioZona2", StringOr(m, "inicioZona2", "20")),
      ("fimZona2", StringOr(m, "fimZona2", "30")), ("inicioZona3", StringOr(m, "inicioZona3", "30")),
      ("fimZona3", StringOr(m, "fimZona3", "40"))]
  {
  }

  /** resetarConfiguracoes: put the eleven defaults, then configSalva false. */
  method ResetarConfiguracoes(preferences: Preferences)
    modifies preferences
    ensures preferences.entries == Reset(old(preferences.entries))
  {
    ghost var m := preferences.entries;
    ResetPutsAreReset(m);
    preferences.PutString("ssid", "CLARO_D4D094");
    preferences.PutString("senha", "NYJmv24gGv");
    preferences.PutString("ipServidor", "192.168.1.1");
    preferences.PutString("portaServidor", "8080");
    preferences.PutString("token", "default_token");
    preferences.PutString("inicioZona1", "10");
    preferences.PutString("fimZona1", "20");
    preferences.PutString("inicioZona2", "20");
    preferences.PutString("fimZona2", "30");
    preferences.PutString("inicioZona3", "30");
    preferences.PutString("fimZona3", "40");
    preferences.PutBool(CONFIG_SALVA, false);
    assert preferences.entries == ResetPuts(m);
  }

  /** salvarConfiguracoes on a body already parsed; None is a body that does
      not deserialise. */
  method SalvarConfiguracoes(preferences: Preferences, document: Option<JsonValue>) returns (reply: Reply)
    modifies preferences
    ensures document.None? ==>
      && reply == Reply(400, JSON, [("error", "JSON inválido")])
      && preferences.entries == old(preferences.entries)
    ensures document.Some? ==>
      && reply == Reply(200, JSON, [("message", "Configurações salvas com sucesso!")])
      && preferences.entries == Save(old(preferences.entries), document.value)
  {
    if document.None? {
      reply := Reply(400, JSON, [("error", "JSON inválido")]);
      return;
    }
    var jsonDoc := document.value;
    var ssid := Field(jsonDoc, "ssid");
    var senha := Field(jsonDoc, "senha");
    var ipServidor := Field(jsonDoc, "ip-servidor");
    var portaServidor := Field(jsonDoc, "porta-servidor");
    var token := Field(jsonDoc, "token");
    var inicioZona1 := Field(jsonDoc, "inicio-zona-1");
    var fimZona1 := Field(jsonDoc, "fim-zona-1");
    var inicioZona2 := Field(jsonDoc, "inicio-zona-2");
    var fimZona2 := Field(jsonDoc, "fim-zona-2");
    var inicioZona3 := Field(jsonDoc, "inicio-zona-3");
    var fimZona3 := Field(jsonDoc, "fim-zona-3");
    ghost var m := preferences.entries;
    SavePutsAreSave(m, jsonDoc);
    preferences.PutString("ssid", ssid);
    preferences.PutString("senha", senha);
    preferences.PutString("ipServidor", ipServidor);
    preferences.PutString("portaServidor", portaServidor);
    preferences.PutString("token", token);
    preferences.PutString("inicioZona1", inicioZona1);
    preferences.PutString("fimZona1", fimZona1);
    preferences.PutString("inicioZona2", inicioZona2);
    preferences.PutString("fimZona2", fimZona2);
    preferences.PutString("inicioZona3", inicioZona3);
    preferences.PutString("fimZona3", fimZona3);
    preferences.PutBool(CONFIG_SALVA, true);
    assert preferences.entries == SavePuts(m, jsonDoc);
    reply := Reply(200, JSON, [("message", "Configurações salvas com sucesso!")]);
  }

  /** recuperarConfiguracoes: reset when nothing was saved, then reply with the
      eleven settings. */
  method RecuperarConfiguracoes(preferences: Preferences) returns (reply: Reply)
    modifies preferences
    ensures preferences.entries == RecoverState(old(preferences.entries))
    ensures reply == Reply(200, JSON, Recovered(preferences.entries))
  {
    if !preferences.GetBool(CONFIG_SALVA, false) {
      ResetarConfiguracoes(preferences);
    }
    var jsonResponse := [
      ("ssid", preferences.GetString("ssid", "CLARO_D4D094")),
      ("senha", preferences.GetString("senha", "NYJmv24gGv")),
      ("ipServidor", preferences.GetString("ipServidor", "192.168.1.1")),
      ("portaServidor", preferences.GetString("portaServidor", "8080")),
      ("token", preferences.GetString("token", "default_token")),
      ("inicioZona1", preferences.GetString("inicioZona1", "10")),
      ("fimZona1", preferences.GetString("fimZona1", "20")),
      ("inicioZona2", preferences.GetString("inicioZona2", "20")),
      ("fimZona2", preferences.GetString("fimZona2", "30")),
      ("inicioZona3", preferences.GetString("inicioZona3", "30")),
      ("fimZona3", preferences.GetString("fimZona3", "40"))];
    RecoveredInOrder(preferences.entries);
    reply := Reply(200, JSON, jsonResponse);
  }

  /** Resetting twice leaves the store as resetting once. */
  lemma ResetIdempotent(m: Store)
    ensures Reset(Reset(m)) == Reset(m)
  {
  }

  /** Without a saved configuration recuperar resets, replies with the
      defaults, and leaves configSalva false, so the next recuperar resets
      again. */
  lemma RecoverWhenUnsaved(m: Store)
    requires !Saved(m)
    ensures RecoverState(m) == Reset(m)
    ensures !Saved(RecoverState(m))
    ensures forall i :: 0 <= i < |KEYS| ==> Recovered(RecoverState(m))[i] == (KEYS[i], DEFAULTS[KEYS[i]])
  {
  }

  /** Repeated recuperar calls change the store at most once. */
  lemma RecoverIdempotent(m: Store)
    ensures RecoverState(RecoverState(m)) == RecoverState(m)
  {
  }

  /** salvar then recuperar: the store is kept and the reply carries the
      values of the saved JSON members, "" for missing or non-string ones. */
  lemma SaveThenRecover(m: Store, document: JsonValue)
    ensures Saved(Save(m, document))
    ensures RecoverState(Save(m, document)) == Save(m, document)
    ensures forall i :: 0 <= i < |KEYS| ==>
      Recovered(Save(m, document))[i] == (KEYS[i], Field(document, JSON_NAMES[KEYS[i]]))
  {
  }

  /** The members of an object serialised from a body with distinct names. */
  lemma {:induction false} MembersOf(body: seq<(string, string)>)
    requires forall i, j :: 0 <= i < j < |body| ==> body[i].0 != body[j].0
    ensures forall name :: name in Members(body) <==> exists i :: 0 <= i < |body| && body[i].0 == name
    ensures forall i :: 0 <= i < |body| ==> Members(body)[body[i].0] == JString(body[i].1)
  {
    if body != [] {
      var front := body[..|body| - 1];
      MembersOf(front);
    }
  }

  /** The reply names each setting once. */
  lemma KeysDistinct()
    ensures forall i, j :: 0 <= i < j < |KEYS| ==> KEYS[i] != KEYS[j]
  {
  }

  /** The reply names exactly the settings that have defaults. */
  lemma KeysAreDefaults()
    ensures forall name :: name in KEYS <==> name in DEFAULTS
  {
  }

  /** Only ssid, senha and token are read from a JSON member named like the
      setting itself; the other eight hyphenated names are no setting's name. */
  lemma NamesOnlyThreeShared()
    ensures forall k :: k in JSON_NAMES ==>
      if k in {"ssid", "senha", "token"} then JSON_NAMES[k] == k else JSON_NAMES[k] !in DEFAULTS
  {
  }

  /** The JSON object of a recuperar reply: one string member per setting,
      under its camelCase name. */
  lemma EchoMembers(m: Store)
    ensures forall name :: name in Members(Recovered(m)) <==> name in DEFAULTS
    ensures forall k :: k in DEFAULTS ==> Members(Recovered(m))[k] == JString(StringOr(m, k, DEFAULTS[k]))
  {
    var body := Recovered(m);
    KeysDistinct();
    KeysAreDefaults();
    assert forall i :: 0 <= i < |body| ==> body[i].0 == KEYS[i];
    MembersOf(body);
    forall k | k in DEFAULTS
      ensures Members(body)[k] == JString(StringOr(m, k, DEFAULTS[k]))
    {
      var i :| 0 <= i < |KEYS| && KEYS[i] == k;
      assert body[i] == (k, StringOr(m, k, DEFAULTS[k]));
    }
  }

  /** A recuperar reply posted back to salvar: it names the settings in
      camelCase while salvar reads hyphenated names, so only ssid, senha and
      token survive and the other eight settings become "". */
  lemma EchoKeepsThree(m: Store, m': Store)
    ensures var s := Save(m', JObject(Members(Recovered(m))));
      forall k :: k in JSON_NAMES ==>
        s[k] == StringEntry(if k in {"ssid", "senha", "token"} then StringOr(m, k, DEFAULTS[k]) else "")
  {
    var document := JObject(Members(Recovered(m)));
    var s := Save(m', document);
    EchoMembers(m);
    NamesOnlyThreeShared();
    forall k | k in JSON_NAMES
      ensures s[k] == StringEntry(if k in {"ssid", "senha", "token"} then StringOr(m, k, DEFAULTS[k]) else "")
    {
      assert s[k] == StringEntry(Field(document, JSON_NAMES[k]));
    }
  }
}
