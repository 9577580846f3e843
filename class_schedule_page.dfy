/**
 * The class-schedule page's state and its handlers: the form, the time
 * error shown under the time inputs, the class being edited, which day
 * cards are expanded, and whether the dialog is open.
 */
module ClassSchedulePage {
  import opened Optional
  import opened ClassSchedule
  import Store
  import Text
  import opened Feedback

  /** The two time inputs that run the start/end check. */
  datatype TimeField = StartTime | EndTime

  /** The other inputs of the form, which only copy their value in. */
  datatype TextField = Day | Section | CourseCode | TeacherCode | CourseTitle | Room

  /** What pressing submit does: raise the time error, or send a request. */
  datatype SubmitOutcome = Blocked(toast: Toast) | Send(request: Store.ClassMutation)

  /** The blank form `resetForm` restores. */
  const EmptyForm: ClassData := ClassData(None, "", "", "", "", "", "", "", "")

  /** `{ ...prev, [field]: value }` for a time field. */
  function WithTime(form: ClassData, field: TimeField, value: string): (r: ClassData)
    ensures field == StartTime ==> r.startTime == value && r.endTime == form.endTime
    ensures field == EndTime ==> r.endTime == value && r.startTime == form.startTime
    ensures r.(startTime := form.startTime, endTime := form.endTime) == form
  {
    match field
    case StartTime => form.(startTime := value)
    case EndTime => form.(endTime := value)
  }

  /** The form's value for one of the plain inputs. */
  function TextOf(form: ClassData, field: TextField): string {
    match field
    case Day => form.day
    case Section => form.section
    case CourseCode => form.courseCode
    case TeacherCode => form.teacherCode
    case CourseTitle => form.courseTitle
    case Room => form.room
  }

  /** `{ ...prev, [field]: value }` for any other field: that field takes the value, every other field stays. */
  function WithText(form: ClassData, field: TextField, value: string): (r: ClassData)
    ensures TextOf(r, field) == value
    ensures forall f :: f != field ==> TextOf(r, f) == TextOf(form, f)
    ensures r.startTime == form.startTime && r.endTime == form.endTime && r.id == form.id
  {
    match field
    case Day => form.(day := value)
    case Section => form.(section := value)
    case CourseCode => form.(courseCode := value)
    case TeacherCode => form.(teacherCode := value)
    case CourseTitle => form.(courseTitle := value)
    case Room => form.(room := value)
  }

  /** A day card is expanded when its flag is set; a day with no flag is collapsed. */
  predicate Expanded(flags: map<string, bool>, day: string) {
    day in flags && flags[day]
  }

  /** `{ ...prev, [day]: !prev[day] }`. */
  function Toggle(flags: map<string, bool>, day: string): (r: map<string, bool>)
    ensures Expanded(r, day) == !Expanded(flags, day)
    ensures forall d :: d != day ==> Expanded(r, d) == Expanded(flags, d)
    ensures r.Keys == flags.Keys + {day}
  {
    flags[day := !Expanded(flags, day)]
  }

  /** Toggling a day twice leaves every card as expanded or collapsed as before. */
  lemma ToggleTwiceRestores(flags: map<string, bool>, day: string)
    ensures forall d :: Expanded(Toggle(Toggle(flags, day), day), d) == Expanded(flags, d)
  {
    var once := Toggle(flags, day);
    var twice := Toggle(once, day);
    forall d
      ensures Expanded(twice, d) == Expanded(flags, d)
    {
      if d == day {
        assert Expanded(twice, d) == !Expanded(once, d);
      } else {
        assert Expanded(once, d) == Expanded(flags, d);
      }
    }
  }

  /** The submit button is disabled while a create or an update is in flight. */
  function SubmitDisabled(createPending: bool, updatePending: bool): (disabled: bool)
    ensures !createPending && !updatePending ==> !disabled
    ensures createPending ==> disabled
    ensures updatePending ==> disabled
  {
    createPending || updatePending
  }

  const InvalidTimeTitle: string := "Invalid Time"

  class SchedulePage {
    var isDialogOpen: bool
    var editingClass: Option<ClassData>
    var timeError: string
    var expandedDays: map<string, bool>
    var formData: ClassData

    /** The time error is either clear or the one message the check produces. */
    ghost predicate Valid()
      reads this
    {
      timeError == "" || timeError == TimeErrorMessage
    }

    /** The page as first rendered. */
    constructor()
      ensures Valid()
      ensures !isDialogOpen && editingClass == None && timeError == ""
      ensures expandedDays == map[] && formData == EmptyForm
    {
      isDialogOpen := false;
      editingClass := None;
      timeError := "";
      expandedDays := map[];
      formData := EmptyForm;
    }

    /** `resetForm`: blank form; the time error is left as it is. */
    method ResetForm()
      requires Valid()
      modifies this
      ensures Valid()
      ensures formData == EmptyForm
      ensures timeError == old(timeError) && editingClass == old(editingClass)
      ensures isDialogOpen == old(isDialogOpen) && expandedDays == old(expandedDays)
    {
      formData := EmptyForm;
    }

    /** `handleTimeChange`: set one time field and re-run the check on the new pair. */
    method HandleTimeChange(field: TimeField, value: string)
      modifies this
      ensures formData == WithTime(old(formData), field, value)
      ensures timeError == TimeError(formData.startTime, formData.endTime)
      ensures Valid()
      ensures editingClass == old(editingClass) && isDialogOpen == old(isDialogOpen)
      ensures expandedDays == old(expandedDays)
    {
      var updated := WithTime(formData, field, value);
      if updated.startTime != "" && updated.endTime != "" && !Text.Less(updated.startTime, updated.endTime) {
        timeError := TimeErrorMessage;
      } else {
        timeError := "";
      }
      formData := updated;
    }

    /** One of the plain inputs (day, section, course code, teacher code, title, room). */
    method SetTextField(field: TextField, value: string)
      requires Valid()
      modifies this
      ensures Valid()
      ensures formData == WithText(old(formData), field, value)
      ensures timeError == old(timeError) && editingClass == old(editingClass)
      ensures isDialogOpen == old(isDialogOpen) && expandedDays == old(expandedDays)
    {
      formData := WithText(formData, field, value);
    }

    /**
     * `handleSubmit`: a stored time error blocks the submit with a toast;
     * otherwise an update of the edited row, sent without an id, or a create.
     */
    method HandleSubmit() returns (outcome: SubmitOutcome)
      requires Valid()
      ensures outcome.Blocked? <==> timeError != ""
      ensures outcome.Blocked? ==> outcome.toast == Toast(InvalidTimeTitle, TimeErrorMessage, true)
      ensures outcome.Send? && editingClass.Some? ==>
        outcome.request == Store.UpdateClass(editingClass.value.id, formData.(id := None))
      ensures outcome.Send? && editingClass.None? ==> outcome.request == Store.CreateClass(formData)
    {
      if timeError != "" {
        return Blocked(Toast(InvalidTimeTitle, timeError, true));
      }
      if editingClass.Some? {
        outcome := Send(Store.UpdateClass(editingClass.value.id, formData.(id := None)));
      } else {
        outcome := Send(Store.CreateClass(formData));
      }
    }

    /**
     * The submit as evidently intended: the check is re-run on the times the
     * form holds now, so a stale message cannot block a valid form and an
     * invalid pair is never sent.
     */
    method HandleSubmitRevalidated() returns (outcome: SubmitOutcome)
      ensures outcome.Blocked? <==> TimeError(formData.startTime, formData.endTime) != ""
      ensures outcome.Blocked? ==> outcome.toast == Toast(InvalidTimeTitle, TimeErrorMessage, true)
      ensures outcome.Send? ==> formData.startTime == "" || formData.endTime == ""
                                || Text.Less(formData.startTime, formData.endTime)
      ensures outcome.Send? && editingClass.Some? ==>
        outcome.request == Store.UpdateClass(editingClass.value.id, formData.(id := None))
      ensures outcome.Send? && editingClass.None? ==> outcome.request == Store.CreateClass(formData)
    {
      var message := TimeError(formData.startTime, formData.endTime);
      if message != "" {
        return Blocked(Toast(InvalidTimeTitle, message, true));
      }
      if editingClass.Some? {
        outcome := Send(Store.UpdateClass(editingClass.value.id, formData.(id := None)));
      } else {
        outcome := Send(Store.CreateClass(formData));
      }
    }

    /** `handleEdit`: load a row into the form and open the dialog; the time error is left as it is. */
    method HandleEdit(item: ClassData)
      requires Valid()
      modifies this
      ensures Valid()
      ensures editingClass == Some(item) && formData == item && isDialogOpen
      ensures timeError == old(timeError) && expandedDays == old(expandedDays)
    {
      editingClass := Some(item);
      formData := item;
      isDialogOpen := true;
    }

    /** `handleAdd`: nothing being edited, a blank form, the dialog open; the time error is left as it is. */
    method HandleAdd()
      requires Valid()
      modifies this
      ensures Valid()
      ensures editingClass == None && formData == EmptyForm && isDialogOpen
      ensures timeError == old(timeError) && expandedDays == old(expandedDays)
    {
      editingClass := None;
      ResetForm();
      isDialogOpen := true;
    }

    /** The dialog's open/close callback and its Cancel button: nothing else changes. */
    method SetDialogOpen(open: bool)
      requires Valid()
      modifies this
      ensures Valid()
      ensures isDialogOpen == open
      ensures formData == old(formData) && timeError == old(timeError)
      ensures editingClass == old(editingClass) && expandedDays == old(expandedDays)
    {
      isDialogOpen := open;
    }

    /** `toggleDayExpansion`: flip one day card. */
    method ToggleDayExpansion(day: string)
      requires Valid()
      modifies this
      ensures Valid()
      ensures expandedDays == Toggle(old(expandedDays), day)
      ensures formData == old(formData) && timeError == old(timeError)
      ensures editingClass == old(editingClass) && isDialogOpen == old(isDialogOpen)
    {
      expandedDays := expandedDays[day := !(day in expandedDays && expandedDays[day])];
    }

    /** The create request settled: on success close the dialog and blank the form. */
    method OnCreateSettled(ok: bool) returns (invalidated: set<string>, toast: Toast)
      requires Valid()
      modifies this
      ensures Valid()
      ensures invalidated == Store.ClassInvalidation(Store.Create, ok)
      ensures ok ==> !isDialogOpen && formData == EmptyForm
      ensures !ok ==> isDialogOpen == old(isDialogOpen) && formData == old(formData)
      ensures toast == if ok then Toast(SuccessTitle, "Class added successfully!", false)
                       else Toast(ErrorTitle, "Failed to add class. Please try again.", true)
      ensures editingClass == old(editingClass) && timeError == old(timeError)
      ensures expandedDays == old(expandedDays)
    {
      invalidated := Store.ClassInvalidation(Store.Create, ok);
      if ok {
        isDialogOpen := false;
        ResetForm();
        toast := Toast(SuccessTitle, "Class added successfully!", false);
      } else {
        toast := Toast(ErrorTitle, "Failed to add class. Please try again.", true);
      }
    }

    /** The update request settled: on success also stop editing. */
    method OnUpdateSettled(ok: bool) returns (invalidated: set<string>, toast: Toast)
      requires Valid()
      modifies this
      ensures Valid()
      ensures invalidated == Store.ClassInvalidation(Store.Update, ok)
      ensures ok ==> !isDialogOpen && editingClass == None && formData == EmptyForm
      ensures !ok ==> isDialogOpen == old(isDialogOpen) && editingClass == old(editingClass)
                      && formData == old(formData)
      ensures toast == if ok then Toast(SuccessTitle, "Class updated successfully!", false)
                       else Toast(ErrorTitle, "Failed to update class. Please try again.", true)
      ensures timeError == old(timeError) && expandedDays == old(expandedDays)
    {
      invalidated := Store.ClassInvalidation(Store.Update, ok);
      if ok {
        isDialogOpen := false;
        editingClass := None;
        ResetForm();
        toast := Toast(SuccessTitle, "Class updated successfully!", false);
      } else {
        toast := Toast(ErrorTitle, "Failed to update class. Please try again.", true);
      }
    }

    /** The delete request settled: only the caches and the toast; the page state is untouched. */
    method OnDeleteSettled(ok: bool) returns (invalidated: set<string>, toast: Toast)
      ensures invalidated == Store.ClassInvalidation(Store.Delete, ok)
      ensures ok ==> Store.ClassesCountKey in invalidated
      ensures toast.destructive <==> !ok
      ensures toast == if ok then Toast(SuccessTitle, "Class deleted successfully!", false)
                       else Toast(ErrorTitle, "Failed to delete class. Please try again.", true)
    {
      invalidated := Store.ClassInvalidation(Store.Delete, ok);
      if ok {
        toast := Toast(SuccessTitle, "Class deleted successfully!", false);
      } else {
        toast := Toast(ErrorTitle, "Failed to delete class. Please try again.", true);
      }
    }
  }

  /**
   * The stale time error: an invalid pair typed into the add form, the
   * dialog cancelled, then a valid class opened for editing. The form now
   * holds valid times, yet submitting it is blocked by the old message,
   * while the revalidating submit sends the update.
   */
  method StaleTimeErrorScenario() returns (asWritten: SubmitOutcome, revalidated: SubmitOutcome, loaded: ClassData)
    ensures TimeError(loaded.startTime, loaded.endTime) == ""
    ensures asWritten == Blocked(Toast(InvalidTimeTitle, TimeErrorMessage, true))
    ensures revalidated == Send(Store.UpdateClass(loaded.id, loaded.(id := None)))
  {
    var page := new SchedulePage();
    page.HandleAdd();
    page.HandleTimeChange(StartTime, "10:00");
    page.HandleTimeChange(EndTime, "09:00");
    assert Text.Less("09:00", "10:00");
    Text.LessAsymmetric("09:00", "10:00");
    page.SetDialogOpen(false);
    loaded := ClassData(Some("c1"), "Monday", "09:00", "10:00", "CS101", "Introduction", "JD", "Room 101", "A");
    assert Text.Less(loaded.startTime, loaded.endTime);
    page.HandleEdit(loaded);
    asWritten := page.HandleSubmit();
    revalidated := page.HandleSubmitRevalidated();
  }
}
