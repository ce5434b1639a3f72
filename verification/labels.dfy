/** Display labels for ad statuses, priorities and moderation actions. Each
    label comes from a fixed table; a key the table does not know, or whose
    label is empty, is shown as the key itself (`map[key] || key`). */
module Labels {
  import opened Options

  type Table = seq<(string, string)>

  /** The label of the first table row whose key is `key`. */
  function Find(table: Table, key: string): (r: Option<string>)
    ensures r.None? <==> forall i :: 0 <= i < |table| ==> table[i].0 != key
    ensures r.Some? ==> exists i :: 0 <= i < |table| && table[i].0 == key && table[i].1 == r.value
    decreases |table|
  {
    if |table| == 0 then None
    else if table[0].0 == key then Some(table[0].1)
    else
      var r := Find(table[1..], key);
      assert forall i :: 1 <= i < |table| ==> table[i] == table[1..][i - 1];
      r
  }

  /** `table[key] || key`. */
  function LabelOf(table: Table, key: string): string {
    match Find(table, key)
    case Some(shown) => if shown != "" then shown else key
    case None => key
  }

  /** The keys of `table` are distinct, and every label is non-empty and
      differs from its own key. */
  predicate WellFormed(table: Table) {
    && (forall i, j :: 0 <= i < j < |table| ==> table[i].0 != table[j].0)
    && (forall i :: 0 <= i < |table| ==> table[i].1 != "" && table[i].1 != table[i].0)
  }

  /** In a well-formed table every known key shows its own row's label. */
  lemma LabelOfKnown(table: Table, i: nat)
    requires WellFormed(table) && i < |table|
    ensures LabelOf(table, table[i].0) == table[i].1
  {
    assert forall j :: 0 <= j < |table| && j != i ==> table[j].0 != table[i].0;
  }

  /** In a well-formed table the label is the key itself exactly when the key
      is unknown. */
  lemma LabelIsKeyIffUnknown(table: Table, key: string)
    requires WellFormed(table)
    ensures LabelOf(table, key) == key <==> forall i :: 0 <= i < |table| ==> table[i].0 != key
  {
    if exists i :: 0 <= i < |table| && table[i].0 == key {
      var i :| 0 <= i < |table| && table[i].0 == key;
      LabelOfKnown(table, i);
    }
  }

  const StatusTable: Table := [
    ("pending", "На модерации"),
    ("approved", "Одобрено"),
    ("rejected", "Отклонено"),
    ("draft", "Черновик")
  ]

  const PriorityTable: Table := [
    ("normal", "Обычный"),
    ("urgent", "Срочный")
  ]

  const ActionTable: Table := [
    ("approved", "Одобрено"),
    ("rejected", "Отклонено"),
    ("requestChanges", "Вернуто на доработку")
  ]

  function StatusLabel(status: string): string {
    LabelOf(StatusTable, status)
  }

  function PriorityLabel(priority: string): string {
    LabelOf(PriorityTable, priority)
  }

  function ActionLabel(action: string): string {
    LabelOf(ActionTable, action)
  }

  /** The four statuses have their fixed labels; any other string is shown
      unchanged, and only those are. */
  lemma StatusLabels(status: string)
    ensures StatusLabel("pending") == "На модерации"
    ensures StatusLabel("approved") == "Одобрено"
    ensures StatusLabel("rejected") == "Отклонено"
    ensures StatusLabel("draft") == "Черновик"
    ensures StatusLabel(status) == status
        <==> status != "pending" && status != "approved" && status != "rejected" && status != "draft"
  {
    StatusTableWellFormed();
    LabelOfKnown(StatusTable, 0);
    LabelOfKnown(StatusTable, 1);
    LabelOfKnown(StatusTable, 2);
    LabelOfKnown(StatusTable, 3);
    StatusUnknown(status);
  }

  lemma StatusUnknown(status: string)
    ensures StatusLabel(status) == status
        <==> status != "pending" && status != "approved" && status != "rejected" && status != "draft"
  {
    StatusTableWellFormed();
    LabelIsKeyIffUnknown(StatusTable, status);
    assert StatusTable[0].0 == "pending" && StatusTable[1].0 == "approved";
    assert StatusTable[2].0 == "rejected" && StatusTable[3].0 == "draft";
  }

  /** The two priorities have their fixed labels; any other string is shown
      unchanged, and only those are. */
  lemma PriorityLabels(priority: string)
    ensures PriorityLabel("normal") == "Обычный"
    ensures PriorityLabel("urgent") == "Срочный"
    ensures PriorityLabel(priority) == priority <==> priority != "normal" && priority != "urgent"
  {
    PriorityTableWellFormed();
    LabelOfKnown(PriorityTable, 0);
    LabelOfKnown(PriorityTable, 1);
    LabelIsKeyIffUnknown(PriorityTable, priority);
  }

  /** The three moderation actions have their fixed labels; any other string
      is shown unchanged, and only those are. */
  lemma ActionLabels(action: string)
    ensures ActionLabel("approved") == "Одобрено"
    ensures ActionLabel("rejected") == "Отклонено"
    ensures ActionLabel("requestChanges") == "Вернуто на доработку"
    ensures ActionLabel(action) == action
        <==> action != "approved" && action != "rejected" && action != "requestChanges"
  {
    ActionTableWellFormed();
    LabelOfKnown(ActionTable, 0);
    LabelOfKnown(ActionTable, 1);
    LabelOfKnown(ActionTable, 2);
    ActionUnknown(action);
  }

  lemma ActionUnknown(action: string)
    ensures ActionLabel(action) == action
        <==> action != "approved" && action != "rejected" && action != "requestChanges"
  {
    ActionTableWellFormed();
    LabelIsKeyIffUnknown(ActionTable, action);
    assert ActionTable[0].0 == "approved" && ActionTable[1].0 == "rejected";
    assert ActionTable[2].0 == "requestChanges";
  }

  lemma StatusTableWellFormed()
    ensures WellFormed(StatusTable)
  {
  }

  lemma PriorityTableWellFormed()
    ensures WellFormed(PriorityTable)
  {
  }

  lemma ActionTableWellFormed()
    ensures WellFormed(ActionTable)
  {
  }
}
