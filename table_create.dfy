/** The new-table form: its change handler and its single-error check. */
module TableCreate {
  import opened Wrappers
  import opened Js
  import TablesController

  datatype TableField = TableName | Capacity

  /** The form state: the name is always a string; the capacity starts as "" and holds a number once edited. */
  datatype TableForm = TableForm(tableName: string, capacity: JsValue)

  const FillOutAllFields := "Please fill out all fields."
  const NameTooShort := "Table name must be at least 2 characters."

  /** handleChange: the capacity is converted with `Number`, the name kept as typed; the other field is untouched. */
  function HandleChange(form: TableForm, name: TableField, value: string): (r: TableForm)
    ensures name == Capacity ==> r.capacity == ToNumber(Str(value)) && r.tableName == form.tableName
    ensures name == TableName ==> r.tableName == value && r.capacity == form.capacity
  {
    match name
    case TableName => form.(tableName := value)
    case Capacity => form.(capacity := ToNumber(Str(value)))
  }

  /** The body the form submits. */
  function Submitted(form: TableForm): TablesController.TableBody {
    TablesController.TableBody(Str(form.tableName), form.capacity, Undefined)
  }

  /** validateFields: at most one error, the blank check before the length check (in UTF-16
      code units, as `.length` counts); passes when there is none. Every form the server
      would accept passes. */
  method ValidateFields(form: TableForm) returns (ok: bool, error: Option<string>)
    ensures ok <==> error.None?
    ensures ok <==> form.tableName != "" && form.capacity != Str("") && Utf16Length(form.tableName) >= 2
    ensures error == Some(FillOutAllFields) <==> form.tableName == "" || form.capacity == Str("")
    ensures error == Some(NameTooShort) <==>
      form.tableName != "" && form.capacity != Str("") && Utf16Length(form.tableName) < 2
    ensures TablesController.ValidateBody(Submitted(form)).None? ==> ok
  {
    var foundError: Option<string> := None;
    if form.tableName == "" || form.capacity == Str("") {
      foundError := Some(FillOutAllFields);
    } else if Utf16Length(form.tableName) < 2 {
      foundError := Some(NameTooShort);
    }
    error := foundError;
    ok := foundError == None;
  }

  /** Clearing the capacity input stores 0: the form's blank check no longer fires, and the
      server reports the capacity as empty. */
  lemma ClearedCapacityCaughtOnlyByServer(form: TableForm)
    requires Utf16Length(form.tableName) >= 2
    ensures var cleared := HandleChange(form, Capacity, "");
      && cleared.capacity == Num(0)
      && cleared.capacity != Str("")
      && TablesController.ValidateBody(Submitted(cleared)) == Some(TablesController.CapacityEmpty)
  {
  }
}
