/**
 * The events page's state and its handlers: the form, the picked date,
 * the event being edited and whether the dialog is open.
 */
module EventsPage {
  import opened Optional
  import opened Events
  import Store
  import opened Feedback

  /** The blank form `resetForm` restores. */
  const EmptyForm: EventData := EventData(None, "", "", None, None, Some(""))

  /** `e.target.value || null`: an emptied input stores `null`. */
  function InputValue(value: string): (r: Option<string>)
    ensures r.None? <==> value == ""
    ensures r.Some? ==> r.value == value
  {
    if value == "" then None else Some(value)
  }

  class EventsPage {
    var isDialogOpen: bool
    var editingEvent: Option<EventData>
    /** The date picked in the calendar, as its "yyyy-MM-dd" day; `None` when nothing is picked. */
    var selectedDate: Option<string>
    var formData: EventData

    /** The page as first rendered. */
    constructor()
      ensures !isDialogOpen && editingEvent == None && selectedDate == None && formData == EmptyForm
    {
      isDialogOpen := false;
      editingEvent := None;
      selectedDate := None;
      formData := EmptyForm;
    }

    /**
     * The submit button is disabled while a create or an update is in flight
     * or no date has been picked.
     */
    function SubmitDisabled(createPending: bool, updatePending: bool): (disabled: bool)
      reads this
      ensures !disabled <==> !createPending && !updatePending && formData.eventDate != ""
    {
      createPending || updatePending || formData.eventDate == ""
    }

    /** `resetForm`: blank form and no picked date. */
    method ResetForm()
      modifies this
      ensures formData == EmptyForm && selectedDate == None
      ensures isDialogOpen == old(isDialogOpen) && editingEvent == old(editingEvent)
    {
      formData := EmptyForm;
      selectedDate := None;
    }

    /**
     * `handleSubmit`: an update of the edited row, sent without its id, or a
     * create. There is no check of the times: any pair is sent.
     */
    method HandleSubmit() returns (request: Store.EventMutation)
      ensures request.CreateEvent? <==> editingEvent.None?
      ensures editingEvent.Some? ==> request == Store.UpdateEvent(editingEvent.value.id, formData.(id := None))
      ensures editingEvent.None? ==> request == Store.CreateEvent(formData)
    {
      if editingEvent.Some? {
        request := Store.UpdateEvent(editingEvent.value.id, formData.(id := None));
      } else {
        request := Store.CreateEvent(formData);
      }
    }

    /**
     * `handleEdit`: load a row into the form with its empty optional fields
     * as `null`, pick its date and open the dialog.
     */
    method HandleEdit(event: EventData)
      modifies this
      ensures editingEvent == Some(event) && isDialogOpen
      ensures formData == NormalizePayload(event)
      ensures selectedDate == Some(event.eventDate)
      ensures !SubmitDisabled(false, false) <==> event.eventDate != ""
    {
      editingEvent := Some(event);
      formData := event.(startTime := NullIfEmpty(event.startTime),
                         endTime := NullIfEmpty(event.endTime),
                         description := NullIfEmpty(event.description));
      selectedDate := Some(event.eventDate);
      isDialogOpen := true;
    }

    /** `handleAdd`: nothing being edited, a blank form, the dialog open. */
    method HandleAdd()
      modifies this
      ensures editingEvent == None && formData == EmptyForm && selectedDate == None && isDialogOpen
      ensures SubmitDisabled(false, false)
    {
      editingEvent := None;
      ResetForm();
      isDialogOpen := true;
    }

    /**
     * `handleDateSelect`: remember the pick; a picked day also becomes the
     * form's date, while clearing the pick leaves the form's date alone.
     */
    method HandleDateSelect(date: Option<string>)
      modifies this
      ensures selectedDate == date
      ensures date.Some? ==> formData == old(formData).(eventDate := date.value)
      ensures date.None? ==> formData == old(formData)
      ensures isDialogOpen == old(isDialogOpen) && editingEvent == old(editingEvent)
    {
      selectedDate := date;
      if date.Some? {
        formData := formData.(eventDate := date.value);
      }
    }

    method SetTitle(value: string)
      modifies this
      ensures formData == old(formData).(eventTitle := value)
      ensures selectedDate == old(selectedDate) && isDialogOpen == old(isDialogOpen) && editingEvent == old(editingEvent)
    {
      formData := formData.(eventTitle := value);
    }

    method SetStartTime(value: string)
      modifies this
      ensures formData == old(formData).(startTime := InputValue(value))
      ensures selectedDate == old(selectedDate) && isDialogOpen == old(isDialogOpen) && editingEvent == old(editingEvent)
    {
      formData := formData.(startTime := InputValue(value));
    }

    /** The clear button beside the start time. */
    method ClearStartTime()
      modifies this
      ensures formData == old(formData).(startTime := None)
      ensures selectedDate == old(selectedDate) && isDialogOpen == old(isDialogOpen) && editingEvent == old(editingEvent)
    {
      formData := formData.(startTime := None);
    }

    method SetEndTime(value: string)
      modifies this
      ensures formData == old(formData).(endTime := InputValue(value))
      ensures selectedDate == old(selectedDate) && isDialogOpen == old(isDialogOpen) && editingEvent == old(editingEvent)
    {
      formData := formData.(endTime := InputValue(value));
    }

    /** The clear button beside the end time. */
    method ClearEndTime()
      modifies this
      ensures formData == old(formData).(endTime := None)
      ensures selectedDate == old(selectedDate) && isDialogOpen == old(isDialogOpen) && editingEvent == old(editingEvent)
    {
      formData := formData.(endTime := None);
    }

    method SetDescription(value: string)
      modifies this
      ensures formData == old(formData).(description := InputValue(value))
      ensures selectedDate == old(selectedDate) && isDialogOpen == old(isDialogOpen) && editingEvent == old(editingEvent)
    {
      formData := formData.(description := InputValue(value));
    }

    /** The dialog's open/close callback and its Cancel button. */
    method SetDialogOpen(open: bool)
      modifies this
      ensures isDialogOpen == open
      ensures formData == old(formData) && selectedDate == old(selectedDate) && editingEvent == old(editingEvent)
    {
      isDialogOpen := open;
    }

    /** The create request settled: on success close the dialog and blank the form. */
    method OnCreateSettled(ok: bool) returns (invalidated: set<string>, toast: Toast)
      modifies this
      ensures invalidated == Store.EventInvalidation(Store.Create, ok)
      ensures ok ==> !isDialogOpen && formData == EmptyForm && selectedDate == None
      ensures !ok ==> isDialogOpen == old(isDialogOpen) && formData == old(formData) && selectedDate == old(selectedDate)
      ensures editingEvent == old(editingEvent)
      ensures toast == if ok then Toast(SuccessTitle, "Event added successfully!", false)
                       else Toast(ErrorTitle, "Failed to add event. Please try again.", true)
    {
      invalidated := Store.EventInvalidation(Store.Create, ok);
      if ok {
        isDialogOpen := false;
        ResetForm();
        toast := Toast(SuccessTitle, "Event added successfully!", false);
      } else {
        toast := Toast(ErrorTitle, "Failed to add event. Please try again.", true);
      }
    }

    /** The update request settled: on success also stop editing. */
    method OnUpdateSettled(ok: bool) returns (invalidated: set<string>, toast: Toast)
      modifies this
      ensures invalidated == Store.EventInvalidation(Store.Update, ok)
      ensures ok ==> !isDialogOpen && editingEvent == None && formData == EmptyForm && selectedDate == None
      ensures !ok ==> isDialogOpen == old(isDialogOpen) && editingEvent == old(editingEvent)
                      && formData == old(formData) && selectedDate == old(selectedDate)
      ensures toast == if ok then Toast(SuccessTitle, "Event updated successfully!", false)
                       else Toast(ErrorTitle, "Failed to update event. Please try again.", true)
    {
      invalidated := Store.EventInvalidation(Store.Update, ok);
      if ok {
        isDialogOpen := false;
        editingEvent := None;
        ResetForm();
        toast := Toast(SuccessTitle, "Event updated successfully!", false);
      } else {
        toast := Toast(ErrorTitle, "Failed to update event. Please try again.", true);
      }
    }

    /** The delete request settled: only the caches and the toast; the page state is untouched. */
    method OnDeleteSettled(ok: bool) returns (invalidated: set<string>, toast: Toast)
      ensures invalidated == Store.EventInvalidation(Store.Delete, ok)
      ensures ok ==> Store.EventsCountKey in invalidated
      ensures toast.destructive <==> !ok
      ensures toast == if ok then Toast(SuccessTitle, "Event deleted successfully!", false)
                       else Toast(ErrorTitle, "Failed to delete event. Please try again.", true)
    {
      invalidated := Store.EventInvalidation(Store.Delete, ok);
      if ok {
        toast := Toast(SuccessTitle, "Event deleted successfully!", false);
      } else {
        toast := Toast(ErrorTitle, "Failed to delete event. Please try again.", true);
      }
    }
  }

  /**
   * An event whose end comes before its start is still sent, and it is
   * written with both times.
   */
  method ReversedTimesAreSent() returns (request: Store.EventMutation, stored: seq<EventData>)
    ensures request.CreateEvent?
    ensures |stored| == 1 && stored[0].startTime == Some("10:00") && stored[0].endTime == Some("09:00")
  {
    var page := new EventsPage();
    page.HandleAdd();
    page.SetTitle("Review");
    page.HandleDateSelect(Some("2024-05-06"));
    page.SetStartTime("10:00");
    page.SetEndTime("09:00");
    request := page.HandleSubmit();
    stored := Store.ApplyEvent([], request, "e1");
  }
}
