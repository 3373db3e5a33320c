/**
 Whether text input should use the private ("no learning") keyboard mode
 (`GetPrivateKeyboardState`): on when global incognito or the global private
 keyboard is on, or when the source being browsed opted into either.

 Preferences are values here, and so is the source manager's answer: a map
 from the ids of installed sources to their per-source opt-ins.
 */
module GetPrivateKeyboardState {
  import opened Wrappers

  /** What `isIncognitoModeEnabled()` and `isPrivateKeyboardEnabled()` report for one source. */
  datatype SourceSettings = SourceSettings(incognitoModeEnabled: bool, privateKeyboardEnabled: bool)

  datatype Inputs = Inputs(
    incognitoMode: bool,
    privateKeyboardMode: bool,
    sources: map<int, SourceSettings>)

  /** `await(sourceId)`: the one-shot read. */
  function Await(inputs: Inputs, sourceId: Option<int>): (r: bool)
    ensures inputs.incognitoMode ==> r
    ensures inputs.privateKeyboardMode ==> r
    ensures (!inputs.incognitoMode && !inputs.privateKeyboardMode
             && (sourceId.None? || sourceId.value !in inputs.sources)) ==> !r
    ensures (!inputs.incognitoMode && !inputs.privateKeyboardMode
             && sourceId.Some? && sourceId.value in inputs.sources) ==>
      (r <==> inputs.sources[sourceId.value].incognitoModeEnabled
              || inputs.sources[sourceId.value].privateKeyboardEnabled)
  {
    if inputs.incognitoMode then true
    else if inputs.privateKeyboardMode then true
    else if sourceId.None? then false
    else if sourceId.value !in inputs.sources then false
    else
      var source := inputs.sources[sourceId.value];
      source.incognitoModeEnabled || source.privateKeyboardEnabled
  }

  /**
   The combiner `subscribe` uses for a source id. An unknown source falls back
   to the global flags; a known one can only add privacy to them.
   */
  function CombineWithSource(incognito: bool, privateKeyboard: bool, source: Option<SourceSettings>): (r: bool)
    ensures incognito || privateKeyboard ==> r
    ensures source.None? ==> (r <==> incognito || privateKeyboard)
    ensures source.Some? && !incognito && !privateKeyboard ==>
      (r <==> source.value.incognitoModeEnabled || source.value.privateKeyboardEnabled)
  {
    match source
    case None => incognito || privateKeyboard
    case Some(s) => incognito || privateKeyboard || s.incognitoModeEnabled || s.privateKeyboardEnabled
  }

  /**
   The combiner `subscribe` uses when no source id is given: either global
   flag turns it on, and it agrees with the unknown-source fallback above.
   */
  function CombineGlobal(incognito: bool, privateKeyboard: bool): (r: bool)
    ensures r <==> incognito || privateKeyboard
    ensures r == CombineWithSource(incognito, privateKeyboard, None)
  {
    incognito || privateKeyboard
  }

  /**
   One value of the `subscribe(sourceId)` flow, for one snapshot of the
   preferences. Without a source id the flow does not look at any source.
   */
  function Subscribe(inputs: Inputs, sourceId: Option<int>): (r: bool)
    ensures inputs.incognitoMode || inputs.privateKeyboardMode ==> r
    ensures sourceId.None? ==> (r <==> inputs.incognitoMode || inputs.privateKeyboardMode)
    ensures sourceId.Some? && sourceId.value in inputs.sources ==>
      (r <==> inputs.incognitoMode || inputs.privateKeyboardMode
              || inputs.sources[sourceId.value].incognitoModeEnabled
              || inputs.sources[sourceId.value].privateKeyboardEnabled)
    ensures sourceId.Some? && sourceId.value !in inputs.sources ==>
      (r <==> inputs.incognitoMode || inputs.privateKeyboardMode)
  {
    match sourceId
    case None => CombineGlobal(inputs.incognitoMode, inputs.privateKeyboardMode)
    case Some(id) =>
      CombineWithSource(inputs.incognitoMode, inputs.privateKeyboardMode,
                        if id in inputs.sources then Some(inputs.sources[id]) else None)
  }

  /**
   The flow always carries the value a one-shot read would return, provided
   both read the same snapshot. In the source the flow hands the
   extension allow-lists it observed to `isIncognitoModeEnabled(...)` and
   `isPrivateKeyboardEnabled(...)`, while `await` reads them itself; the
   per-source opt-ins in `inputs.sources` stand for both.
   */
  lemma SubscribeAgreesWithAwait(inputs: Inputs, sourceId: Option<int>)
    ensures Subscribe(inputs, sourceId) == Await(inputs, sourceId)
  {
  }

  /** `b` has every flag of `a` switched on, and knows the same sources. */
  ghost predicate AtLeastAsPrivate(a: Inputs, b: Inputs)
  {
    && (a.incognitoMode ==> b.incognitoMode)
    && (a.privateKeyboardMode ==> b.privateKeyboardMode)
    && a.sources.Keys == b.sources.Keys
    && forall id :: id in a.sources ==>
         && (a.sources[id].incognitoModeEnabled ==> b.sources[id].incognitoModeEnabled)
         && (a.sources[id].privateKeyboardEnabled ==> b.sources[id].privateKeyboardEnabled)
  }

  /** Switching any flag on never turns the private keyboard off. */
  lemma AwaitMonotone(a: Inputs, b: Inputs, sourceId: Option<int>)
    requires AtLeastAsPrivate(a, b)
    ensures Await(a, sourceId) ==> Await(b, sourceId)
  {
    if sourceId.Some? && sourceId.value in a.sources {
      var id := sourceId.value;
      assert a.sources[id].incognitoModeEnabled ==> b.sources[id].incognitoModeEnabled;
      assert a.sources[id].privateKeyboardEnabled ==> b.sources[id].privateKeyboardEnabled;
    }
  }
}

/**
 Adding an extension to, or removing it from, the private-keyboard allow-list
 (`TogglePrivateKeyboard.await`). The preference is a set of extension names.
 */
module TogglePrivateKeyboard {

  function Await(allowList: set<string>, extension: string, enable: bool): (r: set<string>)
    ensures enable ==> extension in r
    ensures !enable ==> extension !in r
    ensures forall e :: e != extension ==> (e in r <==> e in allowList)
  {
    if enable then allowList + {extension} else allowList - {extension}
  }

  lemma EnableIsIdempotent(allowList: set<string>, extension: string)
    ensures Await(Await(allowList, extension, true), extension, true) == Await(allowList, extension, true)
  {
  }

  lemma DisableIsIdempotent(allowList: set<string>, extension: string)
    ensures Await(Await(allowList, extension, false), extension, false) == Await(allowList, extension, false)
  {
  }

  /** Enabling and then disabling leaves the list without the extension, and otherwise as it was. */
  lemma EnableThenDisable(allowList: set<string>, extension: string)
    ensures Await(Await(allowList, extension, true), extension, false) == allowList - {extension}
  {
  }

  /** Disabling an extension that was never enabled changes nothing. */
  lemma DisableAbsentIsNoOp(allowList: set<string>, extension: string)
    requires extension !in allowList
    ensures Await(allowList, extension, false) == allowList
  {
  }
}
