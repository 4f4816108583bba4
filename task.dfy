/**
 * The `Task` value type: one to-do item. The `init` with defaults is the datatype
 * constructor with default parameter values; `UUID()` and `Date()`, the defaults of
 * `id` and `dueDate`, draw on randomness and the clock, so callers supply them.
 */
module TaskModel {
  import opened Options
  import Categories
  import Priorities

  /** A `UUID`; only equality matters to the app. */
  type Uuid = nat

  /** A `Date`, as a whole number of seconds. */
  type Date = int

  datatype Task = Task(
    id: Uuid,
    title: string,
    dueDate: Date,
    category: Categories.Category := Categories.Personal,
    isCompleted: bool := false,
    priority: Priorities.Priority := Priorities.Low,
    description: Option<string> := None)

  /** `mutating func update`: rewrites the five edited fields; `id` and `isCompleted` stay. */
  function Update(t: Task, title: string, description: string, dueDate: Date,
                  category: Categories.Category, priority: Priorities.Priority): (u: Task)
    ensures u.id == t.id && u.isCompleted == t.isCompleted
    ensures u.title == title && u.description == Some(description) && u.dueDate == dueDate
    ensures u.category == category && u.priority == priority
  {
    t.(title := title, description := Some(description), dueDate := dueDate,
       category := category, priority := priority)
  }

  lemma InitDefaults(id: Uuid, title: string, dueDate: Date)
    ensures Task(id, title, dueDate).category == Categories.Personal
    ensures Task(id, title, dueDate).priority == Priorities.Low
    ensures !Task(id, title, dueDate).isCompleted
    ensures Task(id, title, dueDate).description == None
  {
  }

  lemma InitStoresArguments(id: Uuid, title: string, dueDate: Date, category: Categories.Category,
                            isCompleted: bool, priority: Priorities.Priority, description: Option<string>)
    ensures var t := Task(id, title, dueDate, category, isCompleted, priority, description);
      t.id == id && t.title == title && t.dueDate == dueDate && t.category == category &&
      t.isCompleted == isCompleted && t.priority == priority && t.description == description
  {
  }

  /** Updating twice with the same arguments is the same as updating once. */
  lemma UpdateIdempotent(t: Task, title: string, description: string, dueDate: Date,
                         category: Categories.Category, priority: Priorities.Priority)
    ensures var once := Update(t, title, description, dueDate, category, priority);
      Update(once, title, description, dueDate, category, priority) == once
  {
  }

  /** Two updates of the same task differ at most in the edited fields: the last one wins. */
  lemma UpdateLastWins(t: Task, title: string, description: string, dueDate: Date,
                       category: Categories.Category, priority: Priorities.Priority,
                       title': string, description': string, dueDate': Date,
                       category': Categories.Category, priority': Priorities.Priority)
    ensures Update(Update(t, title, description, dueDate, category, priority),
                   title', description', dueDate', category', priority')
         == Update(t, title', description', dueDate', category', priority')
  {
  }
}
