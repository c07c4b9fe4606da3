/** The UI stores and `uiActions` (src/lib/stores/ui.ts): three modal flags, the task selected
    for editing or deleting (one slot shared by both modals), dark mode and the sidebar. */
module UiStore {
  import opened Wrappers

  datatype UiState = UiState(
    isCreateModalOpen: bool,
    isEditModalOpen: bool,
    isDeleteModalOpen: bool,
    selectedTask: Option<string>,
    isDarkMode: bool,
    isSidebarOpen: bool
  )

  /** Everything closed, nothing selected, light mode. */
  const InitialUi := UiState(false, false, false, None, false, false)

  /** The six stores, named so that frame conditions can quantify over them. */
  datatype UiField = CreateModal | EditModal | DeleteModal | Selection | DarkMode | Sidebar

  /** `a` and `b` hold the same value in store `g`. */
  predicate SameField(a: UiState, b: UiState, g: UiField) {
    match g
    case CreateModal => a.isCreateModalOpen == b.isCreateModalOpen
    case EditModal => a.isEditModalOpen == b.isEditModalOpen
    case DeleteModal => a.isDeleteModalOpen == b.isDeleteModalOpen
    case Selection => a.selectedTask == b.selectedTask
    case DarkMode => a.isDarkMode == b.isDarkMode
    case Sidebar => a.isSidebarOpen == b.isSidebarOpen
  }

  /** `b` differs from `a` at most in the stores of `changed`. */
  predicate Unchanged(a: UiState, b: UiState, changed: set<UiField>) {
    forall g :: g !in changed ==> SameField(a, b, g)
  }

  function OpenCreateModal(s: UiState): (r: UiState)
    ensures r.isCreateModalOpen && Unchanged(s, r, {CreateModal})
  {
    s.(isCreateModalOpen := true)
  }

  function CloseCreateModal(s: UiState): (r: UiState)
    ensures !r.isCreateModalOpen && Unchanged(s, r, {CreateModal})
  {
    s.(isCreateModalOpen := false)
  }

  /** Selects the task and opens the edit modal; nothing else moves. */
  function OpenEditModal(s: UiState, taskId: string): (r: UiState)
    ensures r.selectedTask == Some(taskId) && r.isEditModalOpen
    ensures Unchanged(s, r, {EditModal, Selection})
  {
    s.(selectedTask := Some(taskId), isEditModalOpen := true)
  }

  /** Closes the edit modal and clears the shared selection, whatever the delete modal shows. */
  function CloseEditModal(s: UiState): (r: UiState)
    ensures r.selectedTask.None? && !r.isEditModalOpen
    ensures Unchanged(s, r, {EditModal, Selection})
  {
    s.(selectedTask := None, isEditModalOpen := false)
  }

  /** Selects the task and opens the delete modal; nothing else moves. */
  function OpenDeleteModal(s: UiState, taskId: string): (r: UiState)
    ensures r.selectedTask == Some(taskId) && r.isDeleteModalOpen
    ensures Unchanged(s, r, {DeleteModal, Selection})
  {
    s.(selectedTask := Some(taskId), isDeleteModalOpen := true)
  }

  /** Closes the delete modal and clears the shared selection, whatever the edit modal shows. */
  function CloseDeleteModal(s: UiState): (r: UiState)
    ensures r.selectedTask.None? && !r.isDeleteModalOpen
    ensures Unchanged(s, r, {DeleteModal, Selection})
  {
    s.(selectedTask := None, isDeleteModalOpen := false)
  }

  function ToggleDarkMode(s: UiState): (r: UiState)
    ensures r.isDarkMode != s.isDarkMode && Unchanged(s, r, {DarkMode})
  {
    s.(isDarkMode := !s.isDarkMode)
  }

  function ToggleSidebar(s: UiState): (r: UiState)
    ensures r.isSidebarOpen != s.isSidebarOpen && Unchanged(s, r, {Sidebar})
  {
    s.(isSidebarOpen := !s.isSidebarOpen)
  }

  function OpenSidebar(s: UiState): (r: UiState)
    ensures r.isSidebarOpen && Unchanged(s, r, {Sidebar})
  {
    s.(isSidebarOpen := true)
  }

  function CloseSidebar(s: UiState): (r: UiState)
    ensures !r.isSidebarOpen && Unchanged(s, r, {Sidebar})
  {
    s.(isSidebarOpen := false)
  }

  // Laws of the transitions

  /** Toggling twice restores the state. */
  lemma TogglesAreInvolutions(s: UiState)
    ensures ToggleDarkMode(ToggleDarkMode(s)) == s
    ensures ToggleSidebar(ToggleSidebar(s)) == s
  {
  }

  /** Opening or closing the sidebar or the create modal a second time changes nothing. */
  lemma OpenCloseIdempotent(s: UiState)
    ensures OpenSidebar(OpenSidebar(s)) == OpenSidebar(s)
    ensures CloseSidebar(CloseSidebar(s)) == CloseSidebar(s)
    ensures OpenCreateModal(OpenCreateModal(s)) == OpenCreateModal(s)
    ensures CloseCreateModal(CloseCreateModal(s)) == CloseCreateModal(s)
  {
  }

  /** Toggling the sidebar opens a closed one and closes an open one. */
  lemma ToggleSidebarIsOpenOrClose(s: UiState)
    ensures ToggleSidebar(s) == if s.isSidebarOpen then CloseSidebar(s) else OpenSidebar(s)
  {
  }

  /** From a state with the modal closed and nothing selected, opening and then closing the edit
      or delete modal comes back to where it started. */
  lemma OpenThenCloseRestores(s: UiState, taskId: string)
    requires s.selectedTask.None?
    ensures !s.isEditModalOpen ==> CloseEditModal(OpenEditModal(s, taskId)) == s
    ensures !s.isDeleteModalOpen ==> CloseDeleteModal(OpenDeleteModal(s, taskId)) == s
  {
  }

  /** The selection is one slot: opening the delete modal over an open edit modal replaces the
      edit modal's task, and closing either modal then clears the selection while the other
      modal stays open. */
  lemma SharedSelection(s: UiState, editId: string, deleteId: string)
    ensures var both := OpenDeleteModal(OpenEditModal(s, editId), deleteId);
      && both.isEditModalOpen && both.isDeleteModalOpen
      && both.selectedTask == Some(deleteId)
      && CloseEditModal(both).isDeleteModalOpen && CloseEditModal(both).selectedTask.None?
      && CloseDeleteModal(both).isEditModalOpen && CloseDeleteModal(both).selectedTask.None?
  {
  }

  // Reachable states

  /** The UI actions, one per entry of `uiActions`. */
  datatype UiAction =
    | OpenCreate | CloseCreate
    | OpenEdit(taskId: string) | CloseEdit
    | OpenDelete(taskId: string) | CloseDelete
    | ToggleDark | ToggleSide | OpenSide | CloseSide

  function Apply(s: UiState, a: UiAction): UiState {
    match a
    case OpenCreate => OpenCreateModal(s)
    case CloseCreate => CloseCreateModal(s)
    case OpenEdit(id) => OpenEditModal(s, id)
    case CloseEdit => CloseEditModal(s)
    case OpenDelete(id) => OpenDeleteModal(s, id)
    case CloseDelete => CloseDeleteModal(s)
    case ToggleDark => ToggleDarkMode(s)
    case ToggleSide => ToggleSidebar(s)
    case OpenSide => OpenSidebar(s)
    case CloseSide => CloseSidebar(s)
  }

  /** The state after running `actions` in order from `s`. */
  function Run(s: UiState, actions: seq<UiAction>): UiState
    decreases |actions|
  {
    if |actions| == 0 then s else Run(Apply(s, actions[0]), actions[1..])
  }

  /** A task is selected only while the edit or the delete modal is open. */
  predicate SelectionHasModal(s: UiState) {
    s.selectedTask.Some? ==> s.isEditModalOpen || s.isDeleteModalOpen
  }

  /** Every action keeps a selection tied to an open modal. */
  lemma ApplyKeepsSelectionHasModal(s: UiState, a: UiAction)
    requires SelectionHasModal(s)
    ensures SelectionHasModal(Apply(s, a))
  {
  }

  /** Every state reachable from the initial one has a selection only under an open modal. */
  lemma {:induction false} ReachableSelectionHasModal(s: UiState, actions: seq<UiAction>)
    requires SelectionHasModal(s)
    ensures SelectionHasModal(Run(s, actions))
    decreases |actions|
  {
    if |actions| > 0 {
      ApplyKeepsSelectionHasModal(s, actions[0]);
      ReachableSelectionHasModal(Apply(s, actions[0]), actions[1..]);
    }
  }

  /** The converse fails: an open modal need not have a selected task. Opening both modals and
      closing the edit one leaves the delete modal open with nothing selected. */
  lemma OpenModalWithoutSelection(editId: string, deleteId: string)
    ensures var s := Run(InitialUi, [OpenEdit(editId), OpenDelete(deleteId), CloseEdit]);
      s.isDeleteModalOpen && s.selectedTask.None?
  {
    var s1 := Apply(InitialUi, OpenEdit(editId));
    var s2 := Apply(s1, OpenDelete(deleteId));
    var s3 := Apply(s2, CloseEdit);
    assert Run(InitialUi, [OpenEdit(editId), OpenDelete(deleteId), CloseEdit]) == Run(s1, [OpenDelete(deleteId), CloseEdit]);
    assert Run(s1, [OpenDelete(deleteId), CloseEdit]) == Run(s2, [CloseEdit]);
    assert Run(s2, [CloseEdit]) == Run(s3, []);
  }
}
