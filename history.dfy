/**
 * The shared calculation log: a list of entries, oldest first, trimmed to the
 * newest 1000 whenever an entry is added. Identifiers (uuid4) and timestamps
 * (datetime.now) come from outside and are parameters here.
 */
module History {
  import opened Options

  /** What a calculator hands to the log: its category, the input text and the result text. */
  datatype Record = Record(kind: string, input: string, result: string)

  datatype Entry = Entry(id: string, timestamp: int, record: Record)

  /** max_entries. */
  const MaxEntries: nat := 1000

  /** What load_history finds: no file, a file that reads as a list of entries, or a read that raises. */
  datatype Stored = Missing | Loaded(entries: seq<Entry>) | Unreadable

  /** The last MaxEntries entries, in order, once the log has grown longer than that. */
  function Newest(s: seq<Entry>): seq<Entry>
  {
    if |s| > MaxEntries then s[|s| - MaxEntries..] else s
  }

  /** The entries whose kind is `kind`, in order. */
  function OfKind(s: seq<Entry>, kind: string): seq<Entry>
  {
    if s == [] then []
    else (if s[0].record.kind == kind then [s[0]] else []) + OfKind(s[1..], kind)
  }

  /** The entries whose id is not `id`, in order. */
  function WithoutId(s: seq<Entry>, id: string): seq<Entry>
  {
    if s == [] then []
    else (if s[0].id != id then [s[0]] else []) + WithoutId(s[1..], id)
  }

  predicate IdsAbsent(s: seq<Entry>, id: string)
  {
    forall k :: 0 <= k < |s| ==> s[k].id != id
  }

  /** Trimming keeps the list within the limit, keeps its newest end and drops nothing from a short list. */
  lemma NewestSpec(s: seq<Entry>)
    ensures |Newest(s)| == if |s| > MaxEntries then MaxEntries else |s|
    ensures Newest(s) == s[|s| - |Newest(s)|..]
    ensures |s| <= MaxEntries ==> Newest(s) == s
  {
  }

  /** The entry just added is always the last one kept. */
  lemma NewestKeepsLast(s: seq<Entry>, e: Entry)
    ensures |Newest(s + [e])| >= 1 && Newest(s + [e])[|Newest(s + [e])| - 1] == e
  {
  }

  /** The kind filter keeps exactly the entries of that kind. */
  lemma {:induction false} OfKindMembers(s: seq<Entry>, kind: string, e: Entry)
    ensures e in OfKind(s, kind) <==> e in s && e.record.kind == kind
  {
    if s != [] {
      OfKindMembers(s[1..], kind, e);
      assert s == [s[0]] + s[1..];
    }
  }

  /** Filtering commutes with appending, so entries keep their order. */
  lemma {:induction false} OfKindAppend(a: seq<Entry>, b: seq<Entry>, kind: string)
    ensures OfKind(a + b, kind) == OfKind(a, kind) + OfKind(b, kind)
  {
    if a == [] {
      assert a + b == b;
    } else {
      OfKindAppend(a[1..], b, kind);
      OfKindFront(a, b, kind);
      var head := if a[0].record.kind == kind then [a[0]] else [];
      assert head + (OfKind(a[1..], kind) + OfKind(b, kind)) == (head + OfKind(a[1..], kind)) + OfKind(b, kind);
    }
  }

  lemma OfKindFront(a: seq<Entry>, b: seq<Entry>, kind: string)
    requires a != []
    ensures OfKind(a + b, kind) == (if a[0].record.kind == kind then [a[0]] else []) + OfKind(a[1..] + b, kind)
  {
    assert (a + b)[0] == a[0] && (a + b)[1..] == a[1..] + b;
  }

  /** Filtering twice by the same kind is filtering once. */
  lemma {:induction false} OfKindIdempotent(s: seq<Entry>, kind: string)
    ensures OfKind(OfKind(s, kind), kind) == OfKind(s, kind)
  {
    if s != [] {
      OfKindIdempotent(s[1..], kind);
      OfKindAppend(if s[0].record.kind == kind then [s[0]] else [], OfKind(s[1..], kind), kind);
    }
  }

  /** Deleting keeps exactly the entries with another id. */
  lemma {:induction false} WithoutIdMembers(s: seq<Entry>, id: string, e: Entry)
    ensures e in WithoutId(s, id) <==> e in s && e.id != id
  {
    if s != [] {
      WithoutIdMembers(s[1..], id, e);
      assert s == [s[0]] + s[1..];
    }
  }

  /** Deleting an id that is not there changes nothing. */
  lemma {:induction false} WithoutAbsentId(s: seq<Entry>, id: string)
    requires IdsAbsent(s, id)
    ensures WithoutId(s, id) == s
  {
    if s != [] {
      WithoutAbsentId(s[1..], id);
      assert s == [s[0]] + s[1..];
    }
  }

  lemma {:induction false} WithoutIdAppend(a: seq<Entry>, b: seq<Entry>, id: string)
    ensures WithoutId(a + b, id) == WithoutId(a, id) + WithoutId(b, id)
  {
    if a == [] {
      assert a + b == b;
    } else {
      WithoutIdAppend(a[1..], b, id);
      WithoutIdFront(a, b, id);
      var head := if a[0].id != id then [a[0]] else [];
      assert head + (WithoutId(a[1..], id) + WithoutId(b, id)) == (head + WithoutId(a[1..], id)) + WithoutId(b, id);
    }
  }

  lemma WithoutIdFront(a: seq<Entry>, b: seq<Entry>, id: string)
    requires a != []
    ensures WithoutId(a + b, id) == (if a[0].id != id then [a[0]] else []) + WithoutId(a[1..] + b, id)
  {
    assert (a + b)[0] == a[0] && (a + b)[1..] == a[1..] + b;
  }

  /** Deleting an entry right after adding it, under a fresh id and below the limit, restores the log. */
  lemma AddThenDelete(s: seq<Entry>, e: Entry)
    requires |s| < MaxEntries && IdsAbsent(s, e.id)
    ensures WithoutId(Newest(s + [e]), e.id) == s
  {
    WithoutIdAppend(s, [e], e.id);
    WithoutAbsentId(s, e.id);
  }

  class HistoryManager {
    var history: seq<Entry>

    /** __init__: an empty log, then load_history. */
    constructor (stored: Stored)
      ensures history == match stored
        case Missing => []
        case Loaded(entries) => entries
        case Unreadable => []
    {
      history := [];
      match stored {
        case Missing =>
        case Loaded(entries) => history := entries;
        case Unreadable => history := [];
      }
    }

    /** Appends the entry and keeps the newest MaxEntries; the caller supplies id and timestamp. */
    method AddEntry(id: string, timestamp: int, record: Record) returns (entry: Entry)
      modifies this
      ensures entry == Entry(id, timestamp, record)
      ensures history == Newest(old(history) + [entry])
    {
      entry := Entry(id, timestamp, record);
      history := history + [entry];
      if |history| > MaxEntries {
        history := history[|history| - MaxEntries..];
      }
    }

    function GetHistory(): seq<Entry>
      reads this
    {
      history
    }

    /** No kind, or an empty one, gives the whole log; otherwise the entries of that kind, in order. */
    function GetFilteredHistory(kind: Option<string>): (r: seq<Entry>)
      reads this
      ensures kind.None? || kind.value == "" ==> r == history
      ensures kind.Some? && kind.value != "" ==> forall e :: e in r <==> e in history && e.record.kind == kind.value
    {
      if kind.Some? && kind.value != "" then
        (forall e | e in history ensures e in OfKind(history, kind.value) <==> e.record.kind == kind.value {
           OfKindMembers(history, kind.value, e);
         }
         forall e | e in OfKind(history, kind.value) ensures e in history {
           OfKindMembers(history, kind.value, e);
         }
         OfKind(history, kind.value))
      else history
    }

    method DeleteEntry(id: string)
      modifies this
      ensures history == WithoutId(old(history), id)
    {
      history := WithoutId(history, id);
    }

    method ClearHistory()
      modifies this
      ensures history == []
    {
      history := [];
    }

    /** load_history: a missing file leaves the log alone, a failed read empties it, and nothing is trimmed. */
    method LoadHistory(stored: Stored)
      modifies this
      ensures history == match stored
        case Missing => old(history)
        case Loaded(entries) => entries
        case Unreadable => []
    {
      match stored {
        case Missing =>
        case Loaded(entries) => history := entries;
        case Unreadable => history := [];
      }
    }
  }
}
