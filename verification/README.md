# iron-form in Dafny

A model of the core of Polymer's `iron-form` element (a `<form is="iron-form">`).
The form keeps two parallel lists:

- `_customElements`: the custom elements that registered with it, in registration order;
- `_customElementsInitialValues`: the setting each of them had when it registered.

The model covers what the form does with those lists and with its native controls:

- `serialize` turns every usable control into a name/value dictionary. A name seen again after a truthy value becomes an array of values, except that a native control with an `is` attribute is then skipped instead. A falsy first value is overwritten.
- `validate` asks every eligible custom and native control and requires all of them to pass.
- The loop of `_resetCustomElements` puts each enabled custom element back to its registered setting.
- `submit` either reports an invalid form, or fills in the `iron-ajax` request.

The model is split into five modules:

- `JsValues` (`js_values.dfy`): the JavaScript primitive values, their truthiness, and the upper-casing the POST test uses.
- `FormFields` (`form_fields.dfy`): the control attributes the form reads. Also the decisions of `_usesCheckedInsteadOfValue` and `_useValue`, and the two validation filters.
- `Serialization` (`serialization.dfy`): `serialize` as a pair of left folds over control snapshots, and the properties of the result.
- `Sequences` (`sequences.dfy`): `indexOf`, `splice(i, 1)`, the last occurrence of an object, and the pairing of the two parallel lists.
- `IronForm` (`iron_form.dfy`): the `Control` and `Form` classes. The form's methods update its fields and its controls in place. Each method is proved against the specification functions of the other modules.

A control is a `Control` object. The form writes only three of its fields: `value`, `checked` and `parentForm`. Everything else the form reads is a constant record of `Attributes`.

The same object may register twice, since `_registerElement` does not check for duplicates. The reset loop then writes it twice, and the later registration wins. `ResetCustomElements` states that outcome with `LastIndexBefore`. When no object appears twice, each element simply gets back its own initial setting.

## Model

| member | source | states |
|---|---|---|
| JsValues.IsPostIgnoresCase | app/bower_components/iron-form/iron-form.html.0.js:190 | `method.toUpperCase() === 'POST'` holds exactly for the four letters p, o, s, t, each in either case |
| FormFields.SettingOf | app/bower_components/iron-form/iron-form.html.0.js:291-292 | the initial value recorded at registration is a `checked` setting exactly when the control is a checkbox or radio, and then holds the control's `checked` flag. Otherwise it holds the control's `value` |
| FormFields.SettingCapturesSelectedProperty | app/bower_components/iron-form/iron-form.html.0.js:340-349 | `_usesCheckedInsteadOfValue` decides which property is recorded: a control counts as a checkbox or radio by its `type`, its `role` or the iron-checked behaviour. Two states of one control record the same setting exactly when they agree on that property |
| FormFields.UseValueByKind | app/bower_components/iron-form/iron-form.html.0.js:351-363 | `_useValue` keeps a control exactly when it is enabled, has a name, and is not an unchecked checkbox or radio |
| Serialization.AddCustomElements | app/bower_components/iron-form/iron-form.html.0.js:253-258 | the loop over the registered custom elements adds exactly the names of the elements `_useValue` keeps, and removes no key |
| Serialization.AddNativeElements | app/bower_components/iron-form/iron-form.html.0.js:260-272 | the loop over the native elements adds exactly the names of the elements `_useValue` keeps, and removes no key. This holds whether a customised native element is skipped or added, since it is skipped only when its name is already a key |
| Serialization.Add | app/bower_components/iron-form/iron-form.html.0.js:240-251 | `addSerializedElement`: the result gains only this key and keeps every other entry. If the old entry was truthy, its values get the new one appended and the entry becomes an array. Otherwise the entry is replaced by the new value alone |
| Serialization.SerializedKeys | app/bower_components/iron-form/iron-form.html.0.js:237-275 | the dictionary `serialize` returns has exactly the names of the controls `_useValue` accepts as keys. These are the enabled, named controls that are not unchecked checkboxes or radios |
| Serialization.NoDoubleCounting | app/bower_components/iron-form/iron-form.html.0.js:261-272 | when every usable customised native control (`is` attribute) has a custom control of its name with a truthy value, the native loop adds exactly the plain native controls, after all custom ones |
| Serialization.CollectsInOrder | app/bower_components/iron-form/iron-form.html.0.js:240-258 | starting from an absent or falsy entry, and with a truthy first value, the custom-element loop collects all values of a name in encounter order. The entry stays a scalar exactly when there is one value |
| Serialization.AggregatesInOrder | app/bower_components/iron-form/iron-form.html.0.js:229-275 | duplicate names are aggregated into an array: the custom controls' values in registration order, then the plain native controls' values in document order. A single value stays a scalar |
| Serialization.FalsyFirstValueOverwritten | app/bower_components/iron-form/iron-form.html.0.js:243-244 | a falsy first value under a name is replaced by the next value of that name, not aggregated with it |
| Serialization.EmptyThenNonEmpty | app/bower_components/iron-form/iron-form.html.0.js:243-249 | an empty text field followed by "b" under the same name serialises to "b" alone |
| Sequences.IndexOf | app/bower_components/iron-form/iron-form.html.0.js:298-299 | `indexOf` gives -1 exactly when the object is absent. Otherwise it gives the first index holding the object |
| Sequences.RemoveAt | app/bower_components/iron-form/iron-form.html.0.js:300-301 | `splice(index, 1)` keeps the elements before the index, shifts the later ones down by one, and shortens the list by one |
| Sequences.LastIndexBefore | app/bower_components/iron-form/iron-form.html.0.js:385-393 | the last index below a bound that holds a given object: it holds the object and no later index below the bound does |
| Sequences.RemoveAtZip | app/bower_components/iron-form/iron-form.html.0.js:300-301 | splicing both parallel lists at one index removes exactly one (element, initial value) pair |
| Sequences.AppendZip | app/bower_components/iron-form/iron-form.html.0.js:288-292 | pushing onto both parallel lists appends exactly one (element, initial value) pair |
| Sequences.LastIndexOfDistinct | app/bower_components/iron-form/iron-form.html.0.js:385-393 | when no object is registered twice, the last registration of the element at index i is i itself |
| IronForm.CustomToValidate | app/bower_components/iron-form/iron-form.html.0.js:315-322 | the custom elements whose `validate()` is called: each is registered, required, enabled and has a `validate` method, and every registered element meeting those conditions is among them |
| IronForm.NativeToValidate | app/bower_components/iron-form/iron-form.html.0.js:325-331 | the native elements whose `checkValidity()` is called: each has no `is` attribute, will validate, has `checkValidity` and has a name. Every native element meeting those conditions is among them |
| IronForm.RestoredIsLastRegistration | app/bower_components/iron-form/iron-form.html.0.js:385-393 | after the first n steps of the reset loop, an object has been written exactly when it is enabled. What it holds is the initial value of its last registration among those steps |
| IronForm.Form.constructor | app/bower_components/iron-form/iron-form.html.0.js:63-163 | `ready` starts both registration lists empty, and the properties take their declared defaults: content type `application/x-www-form-urlencoded`, native validation UI enabled, no credentials, no headers |
| IronForm.Form.RegisterElement | app/bower_components/iron-form/iron-form.html.0.js:285-293 | `_registerElement` points the element's `_parentForm` at the form. It appends the element, and its current `checked` or `value`, to the two lists, which stay parallel |
| IronForm.Form.UnregisterElement | app/bower_components/iron-form/iron-form.html.0.js:295-304 | `_unregisterElement` removes the first registration of the target from both lists at the same index. A null or unregistered target changes nothing |
| IronForm.Form.Serialize | app/bower_components/iron-form/iron-form.html.0.js:237-275 | the two loops of `serialize` return the fold of `addSerializedElement` over the usable custom elements, then over the native elements. A customised native element whose name already holds a truthy entry is skipped |
| IronForm.Form.Validate | app/bower_components/iron-form/iron-form.html.0.js:310-334 | `validate` calls the check of every eligible custom element and then of every eligible native element, in order and without stopping at a failure. It answers true exactly when all of them pass |
| IronForm.Form.Restore | app/bower_components/iron-form/iron-form.html.0.js:389-393 | one reset step writes the recorded setting to `checked` for a checkbox or radio, or to `value` otherwise, and leaves the other property alone |
| IronForm.Form.ResetCustomElements | app/bower_components/iron-form/iron-form.html.0.js:379-397 | every enabled registered element gets the initial value of its last registration, which is its own when nothing is registered twice. Disabled elements keep their state, and no element changes the property it does not restore |
| IronForm.Form.Submit | app/bower_components/iron-form/iron-form.html.0.js:168-202 | when `noValidate` is off and validation fails, the form reports invalid and leaves the request untouched. The fake submit happens exactly when the native UI is enabled. Otherwise the request gets the `action` and `method` attributes, the content type, the credentials flag and the headers. The serialised form goes into `body` for POST and into `params` otherwise, and the other field is left alone. The request is sent unless the presubmit event was cancelled |

## Left out

- The `iron-ajax` request object is reduced to the fields `submit` sets. Sending it (`generateRequest`) and the `response`/`error` handlers that re-fire `iron-form-response` and `iron-form-error` are not modelled, because they belong to other elements and to the network.
- Events are not modelled as dispatch. `iron-form-invalid`, `iron-form-presubmit` and `iron-form-submit` become the `SubmitOutcome` of `Submit`. Whether a presubmit listener cancelled the event is a parameter. Listeners that edit the request during `iron-form-presubmit` are not modelled.
- `_doFakeSubmitForValidation` creates a hidden submit button and clicks it, which is DOM work. It is reduced to the `nativeUiTriggered` flag of `ReportedInvalid`.
- The `_onSubmit` and `_onReset` wrappers are not modelled, and neither is the listener table that routes the registration events. `_onSubmit` calls `submit` and cancels the native submit with `preventDefault`. `_onReset` only calls `_resetCustomElements`, and the native reset goes ahead.
- `ResetCustomElements` models the loop body only. The `async` deferral that runs it after the native reset, and the `iron-form-reset` event it fires, are left out because they are scheduling and event dispatch.
- The dictionary `serialize` builds is a `map`, so the insertion order of its keys is not captured. Names inherited from `Object.prototype` (a control named `constructor`, say) are not modelled either: the model treats such names as absent.
- Control values are the JavaScript primitives. Numbers are integers, so `NaN` and `-0` are left out. Objects as values are left out too.
- The `validate()` and `checkValidity()` results of a control are fixed in its attributes. Their side effects, such as a control showing its own error, are not modelled. The `type`, `role`, `disabled`, `required`, `willValidate`, `name` and `is` attributes are constants, because the form never writes them.
- Shadowing of form properties by named controls is not modelled. A control named like a form property (an `<input name="method">` or `<input name="noValidate">`) replaces that property. The model reads `noValidate`, `methodProperty`, `elements`, `contentType`, `withCredentials` and `headers` as plain fields of the form. Only `action` and `method` are read through attributes, as the source does. So the model does not capture validation being skipped by such a control. Nor does it capture the TypeError from `this.method.toUpperCase()` that leaves the request with `url`, `method`, `contentType`, `withCredentials` and `headers` already written but neither `body` nor `params` set.
- `JsValues.ToUpperCase` upper-cases ASCII letters only. Non-ASCII case mappings of the `method` property are left out.
- The form's `method` property, which the browser derives from the `method` attribute, is a separate field. The rule the browser uses to reflect one into the other is not modelled.
- `AggregatesInOrder`: stated only when every customised native control is backed by a truthy custom value of its name and the first value of the name is truthy. When the first value is falsy, the entry is overwritten instead (`FalsyFirstValueOverwritten`). When an `is` control is not backed, the native loop skips it if its name already holds a truthy entry left by an earlier native control, and its value is then lost. Otherwise it adds its value: once if it never registered, and again, overwriting a falsy entry, if it did.
- `ResetCustomElements`: when an object is registered twice, the statement is about the last registration only. This matches the loop, which writes the object once per registration.
