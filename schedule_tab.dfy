/**
 * The schedule tab: the add form's draft state and guard, and the in-place
 * sort by `time` it applies to the list it is given before rendering it.
 */
module ScheduleTab {
  import opened Wrappers
  import opened PlannerTypes
  import opened JsStrings

  /** The form's initial and reset draft: no time, no task, 60 minutes, work. */
  const DefaultDraft := ScheduleDraft("", "", 60, Work)

  /** `newItem.time && newItem.task`: both strings non-empty; no trimming. */
  predicate CanAdd(d: ScheduleDraft)
  {
    d.time != "" && d.task != ""
  }

  /** A whitespace-only task passes the guard. */
  lemma BlankTaskAccepted(time: string, task: string, category: CategoryKey)
    requires time != "" && task != "" && IsBlank(task)
    ensures CanAdd(ScheduleDraft(time, task, 60, category))
    ensures Trim(task) == []
  {
  }

  /** The component state of the add form: the draft being edited. */
  class ScheduleForm {
    var newItem: ScheduleDraft

    /** No input edits the duration, so it stays at the default. */
    ghost predicate Valid()
      reads this
    {
      newItem.duration == 60
    }

    constructor ()
      ensures newItem == DefaultDraft && Valid()
    {
      newItem := DefaultDraft;
    }

    /** The time input's `onChange`. */
    method EditTime(time: string)
      requires Valid()
      modifies this
      ensures Valid() && newItem == old(newItem).(time := time)
    {
      newItem := newItem.(time := time);
    }

    /** The task input's `onChange`. */
    method EditTask(task: string)
      requires Valid()
      modifies this
      ensures Valid() && newItem == old(newItem).(task := task)
    {
      newItem := newItem.(task := task);
    }

    /** The category select's `onChange`. */
    method EditCategory(category: CategoryKey)
      requires Valid()
      modifies this
      ensures Valid() && newItem == old(newItem).(category := category)
    {
      newItem := newItem.(category := category);
    }

    /**
     * `handleAddItem`: when the guard holds, the draft is handed to the
     * store's `onAddItem` (returned here) and the form is reset; otherwise
     * nothing is handed on and the draft stays as it was.
     */
    method HandleAddItem() returns (forwarded: Option<ScheduleDraft>)
      requires Valid()
      modifies this
      ensures Valid()
      ensures forwarded == if CanAdd(old(newItem)) then Some(old(newItem)) else None
      ensures newItem == if CanAdd(old(newItem)) then DefaultDraft else old(newItem)
      ensures forwarded.Some? ==> forwarded.value.duration == 60
    {
      if newItem.time != "" && newItem.task != "" {
        forwarded := Some(newItem);
        newItem := ScheduleDraft("", "", 60, Work);
      } else {
        forwarded := None;
      }
    }
  }

  // ---------------------------------------------------------------- sort by time

  /** Each item's time sorts no later than the next one's. */
  predicate SortedByTime(s: seq<ScheduleItem>)
  {
    forall k :: 0 < k < |s| ==> CodePointLe(s[k - 1].time, s[k].time)
  }

  /** A list sorted pair by pair is sorted between any two positions. */
  lemma {:induction false} SortedByTimePairwise(s: seq<ScheduleItem>, i: int, j: int)
    requires SortedByTime(s) && 0 <= i <= j < |s|
    ensures CodePointLe(s[i].time, s[j].time)
    decreases j - i
  {
    if i == j {
      CodePointLeTotal(s[i].time, s[i].time);
    } else {
      SortedByTimePairwise(s, i + 1, j);
      CodePointLeTransitive(s[i].time, s[i + 1].time, s[j].time);
    }
  }

  /**
   * `scheduleItems.sort((a, b) => a.time.localeCompare(b.time))`: sorts the
   * array it is given in place, by insertion.
   */
  method SortByTime(a: array<ScheduleItem>)
    modifies a
    ensures SortedByTime(a[..])
    ensures multiset(a[..]) == multiset(old(a[..]))
  {
    var i := 0;
    while i < a.Length
      invariant 0 <= i <= a.Length
      invariant forall k :: 0 < k < i ==> CodePointLe(a[k - 1].time, a[k].time)
      invariant multiset(a[..]) == multiset(old(a[..]))
    {
      InsertAt(a, i);
      i := i + 1;
    }
  }

  /** Moves `a[i]` left into the sorted prefix `a[..i]`, so that `a[..i + 1]` is sorted. */
  method InsertAt(a: array<ScheduleItem>, i: int)
    requires 0 <= i < a.Length
    requires forall k :: 0 < k < i ==> CodePointLe(a[k - 1].time, a[k].time)
    modifies a
    ensures forall k :: 0 < k <= i ==> CodePointLe(a[k - 1].time, a[k].time)
    ensures multiset(a[..]) == multiset(old(a[..]))
  {
    var j := i;
    while j > 0 && !CodePointLe(a[j - 1].time, a[j].time)
      invariant 0 <= j <= i
      invariant forall k :: 0 < k <= i && k != j && k != j + 1 ==> CodePointLe(a[k - 1].time, a[k].time)
      invariant j < i ==> CodePointLe(a[j].time, a[j + 1].time)
      invariant 0 < j < i ==> CodePointLe(a[j - 1].time, a[j + 1].time)
      invariant multiset(a[..]) == multiset(old(a[..]))
    {
      CodePointLeTotal(a[j - 1].time, a[j].time);
      SwapDown(a, j);
      j := j - 1;
    }
  }

  /** Exchanges `a[j - 1]` and `a[j]`. */
  method SwapDown(a: array<ScheduleItem>, j: int)
    requires 0 < j < a.Length
    modifies a
    ensures a[j - 1] == old(a[j]) && a[j] == old(a[j - 1])
    ensures forall k :: 0 <= k < a.Length && k != j - 1 && k != j ==> a[k] == old(a[k])
    ensures multiset(a[..]) == multiset(old(a[..]))
  {
    a[j - 1], a[j] := a[j], a[j - 1];
  }

  // ---------------------------------------------------------------- "HH:MM" order

  predicate IsDigit(c: char)
  {
    '0' <= c <= '9'
  }

  /** A zero-padded "HH:MM" string, as the time input produces. */
  predicate IsClockTime(s: string)
  {
    |s| == 5 && IsDigit(s[0]) && IsDigit(s[1]) && s[2] == ':' && '0' <= s[3] <= '5' && IsDigit(s[4])
  }

  function DigitValue(c: char): int
  {
    c as int - '0' as int
  }

  /** Minutes since midnight of an "HH:MM" string. */
  function MinutesOf(s: string): int
    requires IsClockTime(s)
  {
    (DigitValue(s[0]) * 10 + DigitValue(s[1])) * 60 + DigitValue(s[3]) * 10 + DigitValue(s[4])
  }

  /** On "HH:MM" strings the string order compares the four digits left to right. */
  lemma ClockOrderIsDigitOrder(a: string, b: string)
    requires IsClockTime(a) && IsClockTime(b)
    ensures CodePointLe(a, b) <==>
      a[0] < b[0] || (a[0] == b[0] && (a[1] < b[1] || (a[1] == b[1] &&
      (a[3] < b[3] || (a[3] == b[3] && a[4] <= b[4])))))
  {
    if a[0] == b[0] {
      assert CodePointLe(a, b) == CodePointLe(a[1..], b[1..]);
      if a[1] == b[1] {
        assert CodePointLe(a[1..], b[1..]) == CodePointLe(a[2..], b[2..]) by {
          assert a[1..][1..] == a[2..] && b[1..][1..] == b[2..];
        }
        assert CodePointLe(a[2..], b[2..]) == CodePointLe(a[3..], b[3..]) by {
          assert a[2..][1..] == a[3..] && b[2..][1..] == b[3..];
        }
        if a[3] == b[3] {
          assert CodePointLe(a[3..], b[3..]) == CodePointLe(a[4..], b[4..]) by {
            assert a[3..][1..] == a[4..] && b[3..][1..] == b[4..];
          }
          assert a[4..][0] == a[4] && b[4..][0] == b[4];
          assert a[4..][1..] == [] && b[4..][1..] == [];
          assert CodePointLe(a[4..], b[4..]) <==> a[4] <= b[4];
        }
      }
    }
  }

  /** On "HH:MM" strings the string order is the chronological order. */
  lemma ClockOrderIsChronological(a: string, b: string)
    requires IsClockTime(a) && IsClockTime(b)
    ensures CodePointLe(a, b) <==> MinutesOf(a) <= MinutesOf(b)
  {
    ClockOrderIsDigitOrder(a, b);
    var ha, hb := DigitValue(a[0]) * 10 + DigitValue(a[1]), DigitValue(b[0]) * 10 + DigitValue(b[1]);
    var ma, mb := DigitValue(a[3]) * 10 + DigitValue(a[4]), DigitValue(b[3]) * 10 + DigitValue(b[4]);
    assert 0 <= ma < 60 && 0 <= mb < 60;
    assert MinutesOf(a) == ha * 60 + ma && MinutesOf(b) == hb * 60 + mb;
    assert MinutesOf(a) <= MinutesOf(b) <==> ha < hb || (ha == hb && ma <= mb);
  }
}
