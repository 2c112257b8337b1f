/**
 * A form control as the form sees it: the attributes it reads, and the
 * decisions `_usesCheckedInsteadOfValue`, `_useValue` and the two
 * validation filters take on them.
 */
module FormFields {
  import opened JsValues

  /** The attributes of a control that the form reads but never writes. */
  datatype Attributes = Attributes(
    name: string,                      // "" when the control has no name
    disabled: bool,
    inputType: string,                 // the `type` property, "" when absent
    role: string,                      // the `role` attribute, "" when absent
    hasIsAttr: bool,                   // carries an `is` attribute (a customised native element)
    hasIronChecked: bool,              // has the iron-checked-element behaviour
    required: bool,
    willValidate: bool,
    validateResult: Option<bool>,      // what `validate()` answers; None when there is no such method
    checkValidityResult: Option<bool>  // what `checkValidity()` answers; None when there is no such method
  )

  /** A snapshot of a control: its attributes and the two properties the form writes. */
  datatype ControlState = ControlState(attrs: Attributes, value: Value, checked: bool)

  /** What the form records at registration and restores on reset. */
  datatype Setting = CheckedSetting(checked: bool) | ValueSetting(value: Value)

  /** A checkbox or radio button, native or custom. */
  predicate UsesChecked(a: Attributes) {
    a.inputType == "checkbox" || a.inputType == "radio" ||
    a.role == "checkbox" || a.role == "radio" ||
    a.hasIronChecked
  }

  /** Whether the control contributes its value to the serialised form. */
  predicate UseValue(s: ControlState) {
    if s.attrs.disabled || s.attrs.name == "" then false
    else if UsesChecked(s.attrs) then s.checked
    else true
  }

  /** The setting recorded at registration: `checked` for checkbox/radio-like controls, `value` otherwise. */
  function SettingOf(s: ControlState): (r: Setting)
    ensures r.CheckedSetting? <==> UsesChecked(s.attrs)
    ensures r.CheckedSetting? ==> r.checked == s.checked
    ensures r.ValueSetting? ==> r.value == s.value
  {
    if UsesChecked(s.attrs) then CheckedSetting(s.checked) else ValueSetting(s.value)
  }

  /** A registered custom element whose `validate()` the form calls. */
  predicate ValidatesAsCustom(a: Attributes) {
    a.required && !a.disabled && a.validateResult.Some?
  }

  /** A native element whose `checkValidity()` the form calls. */
  predicate ValidatesAsNative(a: Attributes) {
    !a.hasIsAttr && a.willValidate && a.checkValidityResult.Some? && a.name != ""
  }

  /**
   * The recorded setting captures exactly the property the kind of the
   * control selects: two states of one control record the same setting
   * iff they agree on `checked` (checkbox/radio-like) or on `value` (otherwise).
   */
  lemma SettingCapturesSelectedProperty(s: ControlState, t: ControlState)
    requires s.attrs == t.attrs
    ensures SettingOf(s) == SettingOf(t) <==>
      if UsesChecked(s.attrs) then s.checked == t.checked else s.value == t.value
  {
  }

  /**
   * A control contributes its value iff it is enabled, named, and its recorded
   * setting is not an unchecked box: an unchecked checkbox or radio is left
   * out, any other enabled named control is kept.
   */
  lemma UseValueByKind(s: ControlState)
    ensures UseValue(s) <==>
      !s.attrs.disabled && s.attrs.name != "" && SettingOf(s) != CheckedSetting(false)
  {
  }
}
