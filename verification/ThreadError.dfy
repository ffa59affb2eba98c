/** The error field of the threads: EOK when a thread is suspended, overwritten by whoever takes it off the list for
    another reason than to serve it. */
module ThreadError {
  import opened Machine
  import opened WaitList

  type Errors = map<Tid, Err>

  function ErrorOf(error: Errors, t: Tid): Err {
    if t in error then error[t] else EOK
  }

  /** After rt_ipc_list_resume_all every thread that waited has RT_ERROR. */
  function FailAll(error: Errors, ws: seq<Tid>): Errors
    decreases |ws|
  {
    if ws == [] then error else FailAll(error[ws[0] := ERROR], ws[1..])
  }

  lemma {:induction false} FailAllAt(error: Errors, ws: seq<Tid>, t: Tid)
    ensures ErrorOf(FailAll(error, ws), t) == if t in ws then ERROR else ErrorOf(error, t)
    decreases |ws|
  {
    if ws != [] {
      FailAllAt(error[ws[0] := ERROR], ws[1..], t);
      assert ws == [ws[0]] + ws[1..];
    }
  }

  lemma FailAllEverywhere(error: Errors, ws: seq<Tid>)
    ensures forall t :: ErrorOf(FailAll(error, ws), t) == if t in ws then ERROR else ErrorOf(error, t)
  {
    forall t ensures ErrorOf(FailAll(error, ws), t) == if t in ws then ERROR else ErrorOf(error, t) {
      FailAllAt(error, ws, t);
    }
  }

  function SetOf(ws: seq<Tid>): set<Tid> {
    set t | t in ws
  }
}
