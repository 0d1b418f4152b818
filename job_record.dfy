/**
 * The job record (PHPJQ_Job): the object a dispatcher hands to `dispatch`,
 * and the object `receive` and the worker's claim hand back. Its fields start
 * out null; the constructor fills in `id` and `return` only from truthy
 * arguments.
 */
module JobRecord {
  import opened PhpValues

  /** A job record. `Null` stands for a field left at its initial null. */
  datatype Job = Job(methodName: string, data: Value, id: Value, ret: Value)

  /** The field value the constructor keeps for an optional argument. */
  function KeepIfTruthy(v: Value): (kept: Value)
    ensures Truthy(v) ==> kept == v
    ensures !Truthy(v) ==> kept == Null
  {
    if Truthy(v) then v else Null
  }

  /**
   * The constructor. `id` and `ret` default to `false`, as in the source, so a
   * record built from a method and a payload alone has null id and return.
   */
  function NewJob(methodName: string, data: Value, id: Value := Bool(false), ret: Value := Bool(false)): (j: Job)
    ensures j.methodName == methodName && j.data == data
    ensures Truthy(id) ==> j.id == id
    ensures !Truthy(id) ==> j.id == Null
    ensures Truthy(ret) ==> j.ret == ret
    ensures !Truthy(ret) ==> j.ret == Null
  {
    Job(methodName, data, KeepIfTruthy(id), KeepIfTruthy(ret))
  }

  /** Every field of a constructed record is either null or truthy. */
  ghost predicate WellFormed(j: Job) {
    (j.id == Null || Truthy(j.id)) && (j.ret == Null || Truthy(j.ret))
  }

  /** The id and return of a constructed record are each null or truthy, never another falsy value. */
  lemma ConstructedIsWellFormed(methodName: string, data: Value, id: Value, ret: Value)
    ensures WellFormed(NewJob(methodName, data, id, ret))
  {
  }

  /**
   * Falsy results cannot be told apart once they pass through the constructor:
   * a job whose return decodes to 0, false, "", "0", an empty array or null is
   * received with a null return.
   */
  lemma FalsyReturnsCollapse(methodName: string, data: Value, id: Value, r1: Value, r2: Value)
    requires !Truthy(r1) && !Truthy(r2)
    ensures NewJob(methodName, data, id, r1) == NewJob(methodName, data, id, r2)
    ensures NewJob(methodName, data, id, r1).ret == Null
  {
  }

  /** Without a truthy id, the record built from a method and a payload alone has neither id nor return. */
  lemma ShortFormHasNoReturn(methodName: string, data: Value, id: Value)
    ensures NewJob(methodName, data, id).ret == Null
    ensures NewJob(methodName, data).id == Null
    ensures NewJob(methodName, data, id).id == Null <==> !Truthy(id)
  {
  }
}
