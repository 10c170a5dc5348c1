/** The match editor of the account details dialog
    (components/AccountDetailsModal.tsx): the list operations behind adding,
    editing and deleting a record, and the dialog's editing flags. */
module AccountDetails {
  import opened Wrappers
  import opened Types
  import opened ArrayOps
  import opened GameLogic

  /** `isEditing`: nothing (`null`), a new record (`'NEW'`), or the id of
      the record being edited. */
  datatype EditTarget = NotEditing | EditingNew | EditingRecord(id: string)

  /** The marker `isEditing` holds while a new record is being added. */
  const NewMarker: string := "NEW"

  /** What `isEditing` means once `startEdit` has stored a record's id in
      it: the save handler compares it with the marker first, so a record
      whose id is the marker is saved as a new record. */
  function TargetOf(id: string): (t: EditTarget)
    ensures t == EditingNew <==> id == NewMarker
    ensures t != EditingNew ==> t == EditingRecord(id)
  {
    if id == NewMarker then EditingNew else EditingRecord(id)
  }

  /** The result and hero fields of the record form; the date and time
      fields are read back as a timestamp when saving. */
  datatype EditForm = EditForm(result: MatchResult, hero: string)

  datatype InfoForm = InfoForm(name: string, rank: Rank, platform: Platform)

  function InfoOf(a: Account): InfoForm {
    InfoForm(a.name, a.rank, a.platform)
  }

  /** The history with one new record at the end. */
  function AppendRecord(history: seq<MatchRecord>, id: string, result: MatchResult, timestamp: int, hero: string): (r: seq<MatchRecord>)
    ensures |r| == |history| + 1
    ensures r[..|history|] == history
    ensures r[|history|] == MatchRecord(id, result, timestamp, Some(hero))
  {
    history + [MatchRecord(id, result, timestamp, Some(hero))]
  }

  /** The history with the record(s) of id `id` given new result, timestamp
      and hero; length, order and every id are kept. */
  function EditRecord(history: seq<MatchRecord>, id: string, result: MatchResult, timestamp: int, hero: string): (r: seq<MatchRecord>)
    ensures |r| == |history|
    ensures forall i :: 0 <= i < |r| ==> r[i].id == history[i].id
    ensures forall i :: 0 <= i < |r| && history[i].id != id ==> r[i] == history[i]
    ensures forall i :: 0 <= i < |r| && history[i].id == id ==>
              r[i].result == result && r[i].timestamp == timestamp && r[i].hero == Some(hero)
  {
    MapWhere(history, (h: MatchRecord) => h.id == id,
             (h: MatchRecord) => h.(result := result, timestamp := timestamp, hero := Some(hero)))
  }

  /** The history without the record(s) of id `id`, the others in their
      original order. */
  function DeleteRecord(history: seq<MatchRecord>, id: string): (r: seq<MatchRecord>)
    ensures IsSubsequence(r, history)
    ensures forall m :: multiset(r)[m] == if m.id == id then 0 else multiset(history)[m]
    ensures forall i :: 0 <= i < |r| ==> r[i].id != id
  {
    var keep := (h: MatchRecord) => h.id != id;
    FilterSpec(history, keep);
    Filter(history, keep)
  }

  /** When ids are distinct, editing an existing record changes that one
      record and no other, and the edited record keeps its position. */
  lemma {:induction false} EditRecordChangesOne(history: seq<MatchRecord>, k: nat, result: MatchResult, timestamp: int, hero: string)
    requires k < |history|
    requires forall i, j :: 0 <= i < j < |history| ==> history[i].id != history[j].id
    ensures var r := EditRecord(history, history[k].id, result, timestamp, hero);
            && r[k] == MatchRecord(history[k].id, result, timestamp, Some(hero))
            && forall j :: 0 <= j < |r| && j != k ==> r[j] == history[j]
  {
    var r := EditRecord(history, history[k].id, result, timestamp, hero);
    forall j | 0 <= j < |r| && j != k ensures r[j] == history[j] {
      assert history[j].id != history[k].id by {
        if j < k { assert history[j].id != history[k].id; } else { assert history[k].id != history[j].id; }
      }
    }
  }

  /** The state of the details dialog for one account. */
  class DetailsModal {
    var account: Account
    var isEditing: EditTarget
    var editForm: EditForm
    var isEditingInfo: bool
    var infoForm: InfoForm

    constructor (account: Account)
      ensures this.account == account
      ensures isEditing == NotEditing && editForm.result == Win && editForm.hero == ""
      ensures !isEditingInfo && infoForm == InfoOf(account)
    {
      this.account := account;
      isEditing := NotEditing;
      editForm := EditForm(Win, "");
      isEditingInfo := false;
      infoForm := InfoOf(account);
    }

    /** A new `account` property from the parent; the dialog's own state
        is kept. */
    method ReceiveAccount(a: Account)
      modifies this`account
      ensures account == a
    {
      account := a;
    }

    /** The newest-first list the dialog shows. */
    function SortedHistory(): (r: seq<MatchRecord>)
      reads this
      ensures multiset(r) == multiset(account.history)
      ensures SortedDesc(r, Timestamp)
    {
      NewestFirst(account.history)
    }

    /** The index shown is computed from the stored history; it is the
        index of the displayed newest-first list. */
    method Sanction() returns (a: SanctionAnalysis)
      ensures a == SanctionIndex(account.history)
      ensures a == SanctionIndex(SortedHistory())
    {
      a := CalculateSanctionIndex(account.history);
      SanctionOfNewestFirst(account.history);
    }

    /** `handleSaveInfo`: the form is sent to the store and editing ends. */
    method HandleSaveInfo() returns (update: InfoForm)
      modifies this`isEditingInfo
      ensures update == infoForm && !isEditingInfo
    {
      update := infoForm;
      isEditingInfo := false;
    }

    /** `toggleEditInfo`: opening and cancelling both reload the form from
        the account. */
    method ToggleEditInfo()
      modifies this`isEditingInfo, this`infoForm
      ensures isEditingInfo == !old(isEditingInfo)
      ensures infoForm == InfoOf(account)
    {
      if isEditingInfo {
        infoForm := InfoOf(account);
        isEditingInfo := false;
      } else {
        infoForm := InfoOf(account);
        isEditingInfo := true;
      }
    }

    /** Typing in the name, rank or platform inputs. */
    method SetInfoForm(form: InfoForm)
      modifies this`infoForm
      ensures infoForm == form
    {
      infoForm := form;
    }

    /** `startEdit`: edit the given record, or a new one defaulting to LOSS. */
    method StartEdit(record: Option<MatchRecord>)
      modifies this`isEditing, this`editForm
      ensures record.Some? ==>
                isEditing == TargetOf(record.value.id)
                && editForm == EditForm(record.value.result, record.value.hero.GetOr(""))
      ensures record.None? ==> isEditing == EditingNew && editForm == EditForm(Loss, "")
    {
      if record.Some? {
        isEditing := TargetOf(record.value.id);
        editForm := EditForm(record.value.result, record.value.hero.GetOr(""));
      } else {
        isEditing := EditingNew;
        editForm := EditForm(Loss, "");
      }
    }

    /** The cancel buttons of the record form. */
    method CancelEdit()
      modifies this`isEditing
      ensures isEditing == NotEditing
    {
      isEditing := NotEditing;
    }

    /** The WIN/LOSS buttons and the hero input of the record form. */
    method SetEditForm(form: EditForm)
      modifies this`editForm
      ensures editForm == form
    {
      editForm := form;
    }

    /** `handleSaveHistory`: the history to hand to the store, given the
        timestamp read from the form and the id for a new record. */
    method HandleSaveHistory(timestamp: int, newId: string) returns (newHistory: seq<MatchRecord>)
      modifies this`isEditing
      ensures isEditing == NotEditing
      ensures old(isEditing) == EditingNew ==>
                newHistory == AppendRecord(account.history, newId, editForm.result, timestamp, editForm.hero)
      ensures old(isEditing).EditingRecord? ==>
                newHistory == EditRecord(account.history, old(isEditing).id, editForm.result, timestamp, editForm.hero)
      ensures old(isEditing) == NotEditing ==> newHistory == account.history
    {
      newHistory := account.history;
      match isEditing {
        case EditingNew =>
          newHistory := newHistory + [MatchRecord(newId, editForm.result, timestamp, Some(editForm.hero))];
        case EditingRecord(id) =>
          newHistory := EditRecord(newHistory, id, editForm.result, timestamp, editForm.hero);
        case NotEditing =>
          // the `map` matches no record against `null`
      }
      isEditing := NotEditing;
    }

    /** `handleDelete`; `confirmed` is the answer to the confirmation
        dialog, and `None` means nothing is sent to the store. */
    method HandleDelete(id: string, confirmed: bool) returns (newHistory: Option<seq<MatchRecord>>)
      ensures newHistory == if confirmed then Some(DeleteRecord(account.history, id)) else None
    {
      if confirmed {
        newHistory := Some(DeleteRecord(account.history, id));
      } else {
        newHistory := None;
      }
    }
  }
}
