/**
 * The `iron-form` element: the controls it serialises, validates and
 * resets, the two parallel lists of registered custom elements and their
 * initial settings, and the branch logic of `submit`.
 */
module IronForm {
  import opened JsValues
  import opened FormFields
  import opened Serialization
  import opened Sequences

  /**
   * A form control (native element or registered custom element). The form
   * writes only `value`, `checked` and `parentForm`; everything else it reads
   * is fixed in `attrs`.
   */
  class Control {
    const attrs: Attributes
    var value: Value
    var checked: bool
    var parentForm: Form?

    constructor (attrs: Attributes, value: Value, checked: bool)
      ensures this.attrs == attrs && this.value == value && this.checked == checked
      ensures parentForm == null
    {
      this.attrs := attrs;
      this.value := value;
      this.checked := checked;
      parentForm := null;
    }

    function State(): ControlState
      reads this
    {
      ControlState(attrs, value, checked)
    }

    /** `checked` for checkbox/radio-like controls, `value` otherwise. */
    function CurrentSetting(): Setting
      reads this
    {
      SettingOf(State())
    }
  }

  /** The snapshots of a list of controls. */
  function States(cs: seq<Control>): (r: seq<ControlState>)
    reads set c | c in cs
    ensures |r| == |cs|
    ensures forall i :: 0 <= i < |cs| ==> r[i] == cs[i].State()
  {
    seq(|cs|, i reads set c | c in cs requires 0 <= i < |cs| => cs[i].State())
  }

  /** The custom elements whose `validate()` the first loop of `validate` calls, in order. */
  function CustomToValidate(cs: seq<Control>): (r: seq<Control>)
    ensures forall i :: 0 <= i < |r| ==> r[i] in cs && ValidatesAsCustom(r[i].attrs)
    ensures forall i :: 0 <= i < |cs| && ValidatesAsCustom(cs[i].attrs) ==> cs[i] in r
  {
    if cs == [] then []
    else
      var c := cs[|cs| - 1];
      assert cs == cs[..|cs| - 1] + [c];
      CustomToValidate(cs[..|cs| - 1]) + if ValidatesAsCustom(c.attrs) then [c] else []
  }

  /** The native elements whose `checkValidity()` the second loop of `validate` calls, in order. */
  function NativeToValidate(ns: seq<Control>): (r: seq<Control>)
    ensures forall i :: 0 <= i < |r| ==> r[i] in ns && ValidatesAsNative(r[i].attrs)
    ensures forall i :: 0 <= i < |ns| && ValidatesAsNative(ns[i].attrs) ==> ns[i] in r
  {
    if ns == [] then []
    else
      var n := ns[|ns| - 1];
      assert ns == ns[..|ns| - 1] + [n];
      NativeToValidate(ns[..|ns| - 1]) + if ValidatesAsNative(n.attrs) then [n] else []
  }

  /** Every element the form validates answers true. */
  predicate AllValid(cs: seq<Control>, ns: seq<Control>) {
    && (forall i :: 0 <= i < |cs| && ValidatesAsCustom(cs[i].attrs) ==> cs[i].attrs.validateResult.value)
    && (forall i :: 0 <= i < |ns| && ValidatesAsNative(ns[i].attrs) ==> ns[i].attrs.checkValidityResult.value)
  }

  /**
   * The setting the reset loop has written into each object after its first
   * `n` steps: the later write wins when an object is registered twice.
   */
  ghost function Restored(cs: seq<Control>, inits: seq<Setting>, n: nat): (r: map<Control, Setting>)
    requires n <= |cs| == |inits|
    ensures forall c :: c in r ==> !c.attrs.disabled
  {
    if n == 0 then map[]
    else
      var m := Restored(cs, inits, n - 1);
      if cs[n - 1].attrs.disabled then m else m[cs[n - 1] := inits[n - 1]]
  }

  /** An object is restored iff it is enabled, and to the setting of its last registration. */
  lemma {:induction false} RestoredIsLastRegistration(cs: seq<Control>, inits: seq<Setting>, n: nat, k: nat)
    requires n <= |cs| == |inits| && k < n
    ensures cs[k] in Restored(cs, inits, n) <==> !cs[k].attrs.disabled
    ensures !cs[k].attrs.disabled ==> Restored(cs, inits, n)[cs[k]] == inits[LastIndexBefore(cs, n, cs[k])]
  {
    if k < n - 1 {
      RestoredIsLastRegistration(cs, inits, n - 1, k);
    }
  }

  /** The fields of the `iron-ajax` request object that `submit` sets. */
  datatype Request = Request(
    url: Option<string>,
    httpMethod: Option<string>,
    contentType: string,
    withCredentials: bool,
    headers: map<string, string>,
    body: Option<Json>,
    params: Option<Json>)

  /** What a call of `submit` ends in. */
  datatype SubmitOutcome =
    | ReportedInvalid(nativeUiTriggered: bool)  // `iron-form-invalid`; the fake submit when the native UI is enabled
    | Prevented(json: Json)                     // the presubmit event was cancelled: no request
    | Sent(json: Json)                          // request generated and `iron-form-submit` fired with `json`

  class Form {
    /** The registered custom elements, in registration order. */
    var customElements: seq<Control>
    /** The setting each registered element had when it registered, index by index. */
    var initialValues: seq<Setting>
    /** The native form controls, as the document lists them (`this.elements`). */
    var elements: seq<Control>

    var noValidate: bool
    /** The form's `method` property, as the document derives it from the attribute. */
    var methodProperty: string
    /** The `method` and `action` attributes, None when absent. */
    var methodAttribute: Option<string>
    var action: Option<string>

    var contentType: string
    var disableNativeValidationUi: bool
    var withCredentials: bool
    var headers: map<string, string>
    var request: Request

    /** The two registration lists stay parallel, and each setting is of the kind its element restores. */
    ghost predicate Valid()
      reads this
    {
      && |customElements| == |initialValues|
      && forall i :: 0 <= i < |customElements| ==>
           initialValues[i].CheckedSetting? == UsesChecked(customElements[i].attrs)
    }

    /** The element's properties take their declared defaults; `ready` starts both lists empty. */
    constructor (elements: seq<Control>, noValidate: bool, methodProperty: string,
                 methodAttribute: Option<string>, action: Option<string>, freshRequest: Request)
      ensures Valid()
      ensures customElements == [] && initialValues == []
      ensures this.elements == elements && this.noValidate == noValidate
      ensures this.methodProperty == methodProperty && this.methodAttribute == methodAttribute
      ensures this.action == action && request == freshRequest
      ensures contentType == "application/x-www-form-urlencoded"
      ensures !disableNativeValidationUi && !withCredentials && headers == map[]
    {
      customElements := [];
      initialValues := [];
      this.elements := elements;
      this.noValidate := noValidate;
      this.methodProperty := methodProperty;
      this.methodAttribute := methodAttribute;
      this.action := action;
      contentType := "application/x-www-form-urlencoded";
      disableNativeValidationUi := false;
      withCredentials := false;
      headers := map[];
      request := freshRequest;
    }

    /** The registration pairs (element, initial setting). */
    function Registrations(): seq<(Control, Setting)>
      reads this
      requires Valid()
    {
      Zip(customElements, initialValues)
    }

    /** `_registerElement`: append the element and the setting it has now. */
    method RegisterElement(element: Control)
      requires Valid()
      modifies this`customElements, this`initialValues, element`parentForm
      ensures Valid()
      ensures element.parentForm == this
      ensures customElements == old(customElements) + [element]
      ensures initialValues == old(initialValues) + [old(element.CurrentSetting())]
      ensures Registrations() == old(Registrations()) + [(element, old(element.CurrentSetting()))]
    {
      element.parentForm := this;
      AppendZip(customElements, initialValues, element, element.CurrentSetting());
      customElements := customElements + [element];
      initialValues := initialValues + [element.CurrentSetting()];
    }

    /**
     * `_unregisterElement`: drop the first registration of `target` from both
     * lists; a null or unknown target changes nothing.
     */
    method UnregisterElement(target: Control?)
      requires Valid()
      modifies this`customElements, this`initialValues
      ensures Valid()
      ensures target == null || target !in old(customElements) ==>
        customElements == old(customElements) && initialValues == old(initialValues)
      ensures target != null && target in old(customElements) ==>
        var i := IndexOf(old(customElements), target);
        && customElements == RemoveAt(old(customElements), i)
        && initialValues == RemoveAt(old(initialValues), i)
        && Registrations() == RemoveAt(old(Registrations()), i)
    {
      if target != null {
        var index := IndexOf(customElements, target);
        if index > -1 {
          RemoveAtZip(customElements, initialValues, index);
          customElements := RemoveAt(customElements, index);
          initialValues := RemoveAt(initialValues, index);
        }
      }
    }

    /** `serialize`: the custom elements' loop, then the native elements' loop. */
    method Serialize() returns (json: Json)
      ensures json == Serialized(States(customElements), States(elements))
    {
      ghost var custom := States(customElements);
      ghost var native := States(elements);
      json := map[];
      var i := 0;
      while i < |customElements|
        invariant 0 <= i <= |customElements|
        invariant json == AddCustomElements(map[], custom[..i])
      {
        var el := customElements[i];
        assert custom[..i + 1][..i] == custom[..i] && custom[i] == el.State();
        if UseValue(el.State()) {
          json := Add(json, el.attrs.name, el.value);
        }
        i := i + 1;
      }
      assert custom[..i] == custom;
      ghost var afterCustom := json;
      i := 0;
      while i < |elements|
        invariant 0 <= i <= |elements|
        invariant json == AddNativeElements(afterCustom, native[..i])
      {
        var el := elements[i];
        assert native[..i + 1][..i] == native[..i] && native[i] == el.State();
        if !UseValue(el.State()) || (el.attrs.hasIsAttr && Present(json, el.attrs.name)) {
          // contributes nothing, or already serialised as a custom element
        } else {
          json := Add(json, el.attrs.name, el.value);
        }
        i := i + 1;
      }
      assert native[..i] == native;
    }

    /**
     * `validate`: every eligible element's check is made, in order, even after
     * one has failed; the answer is true exactly when all of them pass.
     */
    method Validate() returns (valid: bool, invoked: seq<Control>)
      ensures valid == AllValid(customElements, elements)
      ensures invoked == CustomToValidate(customElements) + NativeToValidate(elements)
    {
      valid := true;
      invoked := [];
      var i := 0;
      while i < |customElements|
        invariant 0 <= i <= |customElements|
        invariant valid == forall k :: 0 <= k < i && ValidatesAsCustom(customElements[k].attrs) ==>
                                     customElements[k].attrs.validateResult.value
        invariant invoked == CustomToValidate(customElements[..i])
      {
        var el := customElements[i];
        if el.attrs.required && !el.attrs.disabled {
          if el.attrs.validateResult.Some? {
            var result := el.attrs.validateResult.value;
            invoked := invoked + [el];
            valid := result && valid;
          }
        }
        assert customElements[..i + 1][..i] == customElements[..i];
        i := i + 1;
      }
      assert customElements[..i] == customElements;
      ghost var customValid := valid;
      ghost var customInvoked := invoked;
      i := 0;
      while i < |elements|
        invariant 0 <= i <= |elements|
        invariant valid == (customValid && forall k :: 0 <= k < i && ValidatesAsNative(elements[k].attrs) ==>
                                                     elements[k].attrs.checkValidityResult.value)
        invariant invoked == customInvoked + NativeToValidate(elements[..i])
      {
        var el := elements[i];
        if !el.attrs.hasIsAttr && el.attrs.willValidate && el.attrs.checkValidityResult.Some? && el.attrs.name != "" {
          var result := el.attrs.checkValidityResult.value;
          invoked := invoked + [el];
          valid := result && valid;
        }
        assert elements[..i + 1][..i] == elements[..i];
        i := i + 1;
      }
      assert elements[..i] == elements;
    }

    /** One step of the reset loop: put `setting` back into the property it belongs to. */
    static method Restore(el: Control, setting: Setting)
      requires setting.CheckedSetting? == UsesChecked(el.attrs)
      modifies el`value, el`checked
      ensures el.CurrentSetting() == setting
      ensures UsesChecked(el.attrs) ==> el.value == old(el.value)
      ensures !UsesChecked(el.attrs) ==> el.checked == old(el.checked)
    {
      if UsesChecked(el.attrs) {
        el.checked := setting.checked;
      } else {
        el.value := setting.value;
      }
    }

    /**
     * The loop of `_resetCustomElements`: each enabled custom element gets back
     * the setting recorded at its last registration; disabled ones keep theirs.
     */
    method ResetCustomElements()
      requires Valid()
      modifies customElements
      ensures forall k :: 0 <= k < |customElements| && !customElements[k].attrs.disabled ==>
        customElements[k].CurrentSetting() ==
          initialValues[LastIndexBefore(customElements, |customElements|, customElements[k])]
      ensures forall k :: 0 <= k < |customElements| && customElements[k].attrs.disabled ==>
        customElements[k].State() == old(customElements[k].State())
      ensures forall k :: 0 <= k < |customElements| ==>
        && (UsesChecked(customElements[k].attrs) ==> customElements[k].value == old(customElements[k].value))
        && (!UsesChecked(customElements[k].attrs) ==> customElements[k].checked == old(customElements[k].checked))
        && customElements[k].parentForm == old(customElements[k].parentForm)
      ensures Distinct(customElements) ==>
        forall k :: 0 <= k < |customElements| && !customElements[k].attrs.disabled ==>
          customElements[k].CurrentSetting() == initialValues[k]
    {
      var cs := customElements;
      var i := 0;
      while i < |cs|
        invariant 0 <= i <= |cs|
        invariant forall k :: 0 <= k < |cs| ==>
          if cs[k] in Restored(cs, initialValues, i) then cs[k].CurrentSetting() == Restored(cs, initialValues, i)[cs[k]]
          else cs[k].value == old(cs[k].value) && cs[k].checked == old(cs[k].checked)
        invariant forall k :: 0 <= k < |cs| ==>
          && (UsesChecked(cs[k].attrs) ==> cs[k].value == old(cs[k].value))
          && (!UsesChecked(cs[k].attrs) ==> cs[k].checked == old(cs[k].checked))
          && cs[k].parentForm == old(cs[k].parentForm)
      {
        var el := cs[i];
        if !el.attrs.disabled {
          Restore(el, initialValues[i]);
        }
        i := i + 1;
      }
      forall k | 0 <= k < |cs|
        ensures cs[k] in Restored(cs, initialValues, |cs|) <==> !cs[k].attrs.disabled
        ensures !cs[k].attrs.disabled ==>
          Restored(cs, initialValues, |cs|)[cs[k]] == initialValues[LastIndexBefore(cs, |cs|, cs[k])]
        ensures Distinct(cs) ==> LastIndexBefore(cs, |cs|, cs[k]) == k
      {
        RestoredIsLastRegistration(cs, initialValues, |cs|, k);
        if Distinct(cs) {
          LastIndexOfDistinct(cs, k);
        }
      }
    }

    /**
     * `submit`: an invalid form (unless `noValidate`) is only reported; otherwise
     * the serialised data goes into the request body for POST and into the
     * params for every other method, and the request is sent unless the
     * presubmit event was cancelled.
     */
    method Submit(presubmitPrevented: bool) returns (outcome: SubmitOutcome)
      modifies this`request
      ensures !noValidate && !AllValid(customElements, elements) ==>
        outcome == ReportedInvalid(!disableNativeValidationUi) && request == old(request)
      ensures noValidate || AllValid(customElements, elements) ==>
        var json := Serialized(States(customElements), States(elements));
        && request.url == action
        && request.httpMethod == methodAttribute
        && request.contentType == contentType
        && request.withCredentials == withCredentials
        && request.headers == headers
        && (IsPost(methodProperty) ==> request.body == Some(json) && request.params == old(request).params)
        && (!IsPost(methodProperty) ==> request.params == Some(json) && request.body == old(request).body)
        && outcome == if presubmitPrevented then Prevented(json) else Sent(json)
    {
      if !noValidate {
        var valid, _ := Validate();
        if !valid {
          outcome := ReportedInvalid(!disableNativeValidationUi);
          return;
        }
      }
      var json := Serialize();
      var r := request.(url := action, httpMethod := methodAttribute, contentType := contentType,
                        withCredentials := withCredentials, headers := headers);
      if IsPost(methodProperty) {
        r := r.(body := Some(json));
      } else {
        r := r.(params := Some(json));
      }
      request := r;
      if presubmitPrevented {
        outcome := Prevented(json);
      } else {
        outcome := Sent(json);
      }
    }
  }
}
