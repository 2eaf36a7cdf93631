/** The credential locator: the access token and MAC key of the logged-in user, found in the
    browser's local storage under a key of the form ND_UC_AUTH...token. */
module Credentials {
  import opened Optional
  import opened JsValues
  import opened Text

  /** One local-storage entry, key and value, in the store's index order. */
  type Entry = (string, string)

  /** What the locator hands to the signer. Either field is whatever the stored JSON held,
      undefined when the member is missing. */
  datatype Credential = Credential(accessToken: JsValue, macKey: JsValue)

  const AuthPrefix := "ND_UC_AUTH"
  const TokenSuffix := "token"

  /** Keys the locator looks at; every other entry is passed over unread. */
  predicate IsCandidate(key: string)
  {
    StartsWith(key, AuthPrefix) && EndsWith(key, TokenSuffix)
  }

  /** The two JSON.parse layers of a stored value: the outer document's `value` member holds the
      JSON text of an object with `access_token` and `mac_key`. None when a parse fails or a
      property read throws (the parsed value is null). */
  function Decode(raw: string, parseJson: string -> Option<JsValue>): (r: Option<Credential>)
    ensures r.Some? ==> parseJson(raw).Some? && Get(parseJson(raw).value, "value").Some?
    ensures parseJson(raw).None? ==> r.None?
  {
    match parseJson(raw)
    case None => None
    case Some(outer) =>
      match Get(outer, "value")
      case None => None
      case Some(wrapped) =>
        // JSON.parse converts a non-string argument to a string first
        match parseJson(JsToString(wrapped))
        case None => None
        case Some(inner) =>
          match Get(inner, "access_token")
          case None => None
          case Some(token) => Some(Credential(token, Get(inner, "mac_key").value))
  }

  /** Once the outer document parses to an object: an inner text that does not parse skips the
      entry, and one that parses to an object gives its `access_token` and `mac_key` members. */
  lemma DecodeOf(raw: string, parseJson: string -> Option<JsValue>, outer: JsValue, inner: JsValue)
    requires parseJson(raw) == Some(outer) && !outer.Null? && !outer.Undefined?
    ensures parseJson(JsToString(Get(outer, "value").value)).None? ==> Decode(raw, parseJson).None?
    ensures parseJson(JsToString(Get(outer, "value").value)) == Some(inner)
              && !inner.Null? && !inner.Undefined?
            ==> Decode(raw, parseJson)
                == Some(Credential(Get(inner, "access_token").value, Get(inner, "mac_key").value))
  {
  }

  /** An outer or inner document that parses to null makes a property read throw: the entry is
      skipped. */
  lemma DecodeNull(raw: string, parseJson: string -> Option<JsValue>)
    ensures parseJson(raw) == Some(Null) ==> Decode(raw, parseJson).None?
    ensures parseJson(raw).Some? && !parseJson(raw).value.Null? && !parseJson(raw).value.Undefined?
              && parseJson(JsToString(Get(parseJson(raw).value, "value").value)) == Some(Null)
            ==> Decode(raw, parseJson).None?
  {
  }

  /** The entry is a candidate whose value decodes. */
  predicate Usable(e: Entry, parseJson: string -> Option<JsValue>)
  {
    IsCandidate(e.0) && Decode(e.1, parseJson).Some?
  }

  /** Entry `i` is the first usable entry of the store. */
  predicate FirstUsableAt(store: seq<Entry>, parseJson: string -> Option<JsValue>, i: int)
  {
    && 0 <= i < |store|
    && Usable(store[i], parseJson)
    && forall j :: 0 <= j < i ==> !Usable(store[j], parseJson)
  }

  /** The reference scan: the credential of the first usable entry, or None. */
  function Locate(store: seq<Entry>, parseJson: string -> Option<JsValue>): (r: Option<Credential>)
    ensures r.None? <==> forall j :: 0 <= j < |store| ==> !Usable(store[j], parseJson)
  {
    if |store| == 0 then None
    else if Usable(store[0], parseJson) then Decode(store[0].1, parseJson)
    else
      assert forall j :: 1 <= j < |store| ==> store[1..][j - 1] == store[j];
      Locate(store[1..], parseJson)
  }

  /** The scan returns the credential of the first usable entry: malformed candidates and
      non-candidate keys before it change nothing. */
  lemma {:induction false} LocateFirst(store: seq<Entry>, parseJson: string -> Option<JsValue>, i: nat)
    requires FirstUsableAt(store, parseJson, i)
    ensures Locate(store, parseJson) == Decode(store[i].1, parseJson)
  {
    if i > 0 {
      assert store[1..][i - 1] == store[i];
      assert forall j :: 0 <= j < i - 1 ==> store[1..][j] == store[j + 1];
      LocateFirst(store[1..], parseJson, i - 1);
    }
  }

  /** The loop as the script writes it: index order, key filter, both parses inside a try whose
      catch continues with the next key. */
  method ScanStore(store: seq<Entry>, parseJson: string -> Option<JsValue>)
    returns (r: Option<Credential>)
    ensures r.Some? ==> exists i :: FirstUsableAt(store, parseJson, i)
                                    && r == Decode(store[i].1, parseJson)
    ensures r.None? ==> forall j :: 0 <= j < |store| ==> !Usable(store[j], parseJson)
  {
    var i := 0;
    while i < |store|
      invariant 0 <= i <= |store|
      invariant forall j :: 0 <= j < i ==> !Usable(store[j], parseJson)
    {
      var (key, value) := store[i];
      if IsCandidate(key) {
        var decoded := Decode(value, parseJson);
        if decoded.Some? {
          assert FirstUsableAt(store, parseJson, i);
          return decoded;
        }
      }
      i := i + 1;
    }
    return None;
  }

  /** A malformed candidate ahead of a well-formed one is skipped, not fatal. */
  lemma SkipsMalformedEntry(badKey: string, bad: string, goodKey: string, good: string,
                            parseJson: string -> Option<JsValue>, c: Credential)
    requires IsCandidate(badKey) && IsCandidate(goodKey)
    requires parseJson(bad).None?
    requires Decode(good, parseJson) == Some(c)
    ensures Locate([(badKey, bad), (goodKey, good)], parseJson) == Some(c)
  {
  }
}
