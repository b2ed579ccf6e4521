/** The configuration dialog and file that Uberspace Quota and ReAD Statistics
    share. Run inside the app, the script shows an alert prefilled with the
    stored text fields and offers to save them, keep the file as it is, or
    delete it; every run then reads the fields back and stops when one is
    blank. The file holds the fields as JSON; here it is the list of fields
    itself, or `None` when no file exists. */
module ConfigDialog {
  import opened Wrappers

  /** A stored field; `None` is JSON `null` or a missing key. */
  type Field = Option<string>

  /** JavaScript truthiness of a field: neither null nor the empty string. */
  predicate Filled(f: Field) {
    f.Some? && f.value != ""
  }

  /** Field `i` of a stored object, `None` when the object has no such field. */
  function Get(fields: seq<Field>, i: nat): Field {
    if i < |fields| then fields[i] else None
  }

  /** What a widget asks for: the names of its text fields, the message thrown
      when one is left blank in the dialog, and the one thrown when the stored
      configuration lacks a value. */
  datatype Form = Form(names: seq<string>, blankMessage: string, incompleteMessage: string)

  const ReadPrefix := "Something went wrong when reading the configuration: "
  const DeletedMessage := "Successfully deleted configuration file from device (this exception is just to stop the script)."
  const NotDeletedMessage := "Couldn't delete configuration file from device."

  /** Some field is filled in. */
  function AnyFilled(fields: seq<Field>): (r: bool)
    ensures r <==> exists i :: 0 <= i < |fields| && Filled(fields[i])
  {
    if fields == [] then false else Filled(fields[0]) || AnyFilled(fields[1..])
  }

  /** The stored fields the dialog is prefilled with: all null without a file. */
  function Prefill(form: Form, store: Option<seq<Field>>): (fs: seq<Field>)
    ensures |fs| == |form.names|
  {
    seq(|form.names|, i requires 0 <= i < |form.names| =>
      if store.Some? then Get(store.value, i) else None)
  }

  /** The primary button: "Save" while no field is filled in yet, "Update" once one is. */
  function ActionLabel(prefill: seq<Field>): (caption: string)
    ensures caption == "Save" <==> forall i :: 0 <= i < |prefill| ==> !Filled(prefill[i])
    ensures caption == "Save" || caption == "Update"
  {
    if AnyFilled(prefill) then "Update" else "Save"
  }

  /** Some entered text is empty. */
  function AnyBlank(entered: seq<string>): (r: bool)
    ensures r <==> exists i :: 0 <= i < |entered| && entered[i] == ""
  {
    if entered == [] then false else entered[0] == "" || AnyBlank(entered[1..])
  }

  /** How the dialog ends: the script goes on with the file as it now is, or
      it stops by throwing `message`. */
  datatype Outcome = Continue(store: Option<seq<Field>>) | Stop(store: Option<seq<Field>>, message: string)

  /** The dialog. `answer` is the button index the alert resolves to (-1 for
      cancel, 0 for the primary action, 1 for delete), `entered` the text
      fields' contents at that moment, and `removed` whether removing the
      file took effect. */
  function Dialog(form: Form, store: Option<seq<Field>>, answer: int, entered: seq<string>, removed: bool): (o: Outcome)
    requires |entered| == |form.names|
    ensures answer == 1 ==> o.Stop?
    ensures o.Stop? && answer != 1 ==> AnyBlank(entered) && o == Stop(store, form.blankMessage)
    ensures answer == -1 ==> o == Continue(store)
  {
    if answer == -1 then Continue(store)
    else if answer == 1 then
      if store.None? || removed then Stop(None, DeletedMessage) else Stop(store, NotDeletedMessage)
    else if AnyBlank(entered) then Stop(store, form.blankMessage)
    else Continue(Some(Saved(entered)))
  }

  /** The fields written by saving. */
  function Saved(entered: seq<string>): (fs: seq<Field>)
    ensures |fs| == |entered|
    ensures forall i :: 0 <= i < |entered| ==> fs[i] == Some(entered[i])
  {
    seq(|entered|, i requires 0 <= i < |entered| => Some(entered[i]))
  }

  /** Every field the form names is filled in. */
  predicate Complete(form: Form, fields: seq<Field>) {
    forall i :: 0 <= i < |form.names| ==> Filled(Get(fields, i))
  }

  /** Reading the configuration back: its values, or the message thrown.
      `missing` is what reading a file that does not exist throws. */
  function ReadConfig(form: Form, store: Option<seq<Field>>, missing: string): (r: Result<seq<string>>)
    ensures r.Ok? <==> store.Some? && Complete(form, store.value)
    ensures r.Ok? ==> |r.value| == |form.names|
    ensures r.Ok? ==> forall i :: 0 <= i < |form.names| ==> Some(r.value[i]) == Get(store.value, i) && r.value[i] != ""
    ensures store.None? ==> r == Err(ReadPrefix + missing)
    ensures store.Some? && !Complete(form, store.value) ==> r == Err(ReadPrefix + form.incompleteMessage)
  {
    if store.None? then Err(ReadPrefix + missing)
    else if !Complete(form, store.value) then Err(ReadPrefix + form.incompleteMessage)
    else Ok(seq(|form.names|, i requires 0 <= i < |form.names| => Get(store.value, i).value))
  }

  /** The start of every run: the dialog when run in the app, then reading the
      configuration. The result is the configured values, or what the script throws. */
  function Startup(form: Form, inWidget: bool, store: Option<seq<Field>>, answer: int,
                   entered: seq<string>, removed: bool, missing: string): Result<seq<string>>
    requires |entered| == |form.names|
  {
    if inWidget then ReadConfig(form, store, missing)
    else
      match Dialog(form, store, answer, entered, removed)
      case Stop(_, message) => Err(message)
      case Continue(s) => ReadConfig(form, s, missing)
  }

  /** Saving non-blank fields and reading them back gives exactly what was entered. */
  lemma SaveThenRead(form: Form, store: Option<seq<Field>>, answer: int, entered: seq<string>, removed: bool, missing: string)
    requires |entered| == |form.names|
    requires answer != -1 && answer != 1
    requires forall i :: 0 <= i < |entered| ==> entered[i] != ""
    ensures Startup(form, false, store, answer, entered, removed, missing) == Ok(entered)
  {
    var fs := Saved(entered);
    assert Complete(form, fs);
    var r := ReadConfig(form, Some(fs), missing);
    assert forall i :: 0 <= i < |entered| ==> Some(r.value[i]) == Some(entered[i]);
    assert r.value == entered;
  }

  /** A blank field is refused and leaves the file as it was. */
  lemma BlankRefused(form: Form, store: Option<seq<Field>>, answer: int, entered: seq<string>, removed: bool, missing: string)
    requires |entered| == |form.names|
    requires answer != -1 && answer != 1
    requires exists i :: 0 <= i < |entered| && entered[i] == ""
    ensures Dialog(form, store, answer, entered, removed) == Stop(store, form.blankMessage)
    ensures Startup(form, false, store, answer, entered, removed, missing) == Err(form.blankMessage)
  {
  }

  /** Cancelling the dialog behaves as a run in the widget: the file is read as it was. */
  lemma CancelIsWidgetRun(form: Form, store: Option<seq<Field>>, entered: seq<string>, removed: bool, missing: string)
    requires |entered| == |form.names|
    ensures Startup(form, false, store, -1, entered, removed, missing) == Startup(form, true, store, 0, entered, removed, missing)
  {
  }

  /** Deleting always stops the script: with the file gone (or never there) it
      reports success, otherwise it reports that the file survived. */
  lemma DeleteStops(form: Form, store: Option<seq<Field>>, entered: seq<string>, removed: bool, missing: string)
    requires |entered| == |form.names|
    ensures var o := Dialog(form, store, 1, entered, removed);
      o.Stop? && (o.store.None? <==> store.None? || removed) &&
      (o.message == DeletedMessage <==> o.store.None?) &&
      (o.message == NotDeletedMessage <==> o.store.Some?)
    ensures Startup(form, false, store, 1, entered, removed, missing).Err?
  {
  }

  /** Once saved, the dialog offers "Update" the next time. */
  lemma SavedShowsUpdate(form: Form, entered: seq<string>)
    requires |entered| == |form.names| >= 1
    requires forall i :: 0 <= i < |entered| ==> entered[i] != ""
    ensures ActionLabel(Prefill(form, Some(Saved(entered)))) == "Update"
  {
    assert Filled(Prefill(form, Some(Saved(entered)))[0]);
  }

  /** Without a file, the dialog offers "Save". */
  lemma FreshShowsSave(form: Form)
    ensures ActionLabel(Prefill(form, None)) == "Save"
  {
  }
}
