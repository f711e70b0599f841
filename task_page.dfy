/**
 * Task management: a task's completion toggled by id (the list is replaced
 * wholesale) and the icon shown beside each of the three categories.
 */
module TaskPage {
  import opened Optional

  datatype Task = Task(id: int, name: string, priority: string, dueDate: string, category: string, completed: bool)

  /** `{ ...task, completed: !task.completed }` for a matching id; any other task unchanged. */
  function Toggled(t: Task, id: int): (r: Task)
    ensures r.(completed := t.completed) == t
    ensures r.completed != t.completed <==> t.id == id
  {
    if t.id == id then t.(completed := !t.completed) else t
  }

  /**
   * `toggleTaskCompletion(id)`: the same tasks in the same order; exactly
   * those with a matching id have `completed` flipped, and nothing else of
   * any task changes.
   */
  function ToggleTaskCompletion(ts: seq<Task>, id: int): (r: seq<Task>)
    ensures |r| == |ts|
    ensures forall i :: 0 <= i < |ts| ==> r[i].(completed := ts[i].completed) == ts[i]
    ensures forall i :: 0 <= i < |ts| ==> (r[i].completed == !ts[i].completed <==> ts[i].id == id)
  {
    seq(|ts|, i requires 0 <= i < |ts| => Toggled(ts[i], id))
  }

  /** Toggling the same id twice gives back the original list. */
  lemma ToggleTaskTwice(ts: seq<Task>, id: int)
    ensures ToggleTaskCompletion(ToggleTaskCompletion(ts, id), id) == ts
  {
    var twice := ToggleTaskCompletion(ToggleTaskCompletion(ts, id), id);
    forall i | 0 <= i < |ts| ensures twice[i] == ts[i] {
      assert twice[i] == Toggled(Toggled(ts[i], id), id);
    }
  }

  /** Toggling a fresh id changes nothing. */
  lemma ToggleAbsentId(ts: seq<Task>, id: int)
    requires forall i :: 0 <= i < |ts| ==> ts[i].id != id
    ensures ToggleTaskCompletion(ts, id) == ts
  {
    var r := ToggleTaskCompletion(ts, id);
    forall i | 0 <= i < |ts| ensures r[i] == ts[i] {
      assert r[i] == Toggled(ts[i], id);
    }
  }

  /** `getCategoryIcon`: an emoji for 'Studi', 'Kerja' and 'Pribadi', null for anything else. */
  function CategoryIcon(category: string): (icon: Option<string>)
    ensures icon.Some? <==> category in {"Studi", "Kerja", "Pribadi"}
    ensures icon.Some? ==> |icon.value| == 1
    ensures category == "Studi" ==> icon == Some("\U{1F4DA}")
  {
    match category
    case "Studi" => Some("\U{1F4DA}")
    case "Kerja" => Some("\U{1F4BC}")
    case "Pribadi" => Some("\U{1F464}")
    case _ => None
  }

  /** The three categories have three different icons. */
  lemma CategoryIconsDistinct()
    ensures CategoryIcon("Studi") != CategoryIcon("Kerja")
    ensures CategoryIcon("Kerja") != CategoryIcon("Pribadi")
    ensures CategoryIcon("Studi") != CategoryIcon("Pribadi")
  {
  }
}
