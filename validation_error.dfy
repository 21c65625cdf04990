/**
 * The `ValidationError` built from class-validator's findings: status 422, message
 * "VALIDATION_ERROR", and as payload every constraint message of every finding, in order.
 */
module ValidationErrors {
  import opened Wrappers
  import opened Errors

  /** One class-validator finding; `constraints` lists its constraint messages in key order. */
  datatype Finding = Finding(property: string, constraints: Option<seq<string>>)

  /** `Object.values(error.constraints || {})`. */
  function MessagesOf(f: Finding): seq<string> {
    f.constraints.GetOr([])
  }

  /** `errors.flatMap(...)`: the findings' messages, concatenated in order. */
  function ConstraintMessages(findings: seq<Finding>): (r: seq<string>)
    ensures |findings| == 0 ==> r == []
  {
    if findings == [] then [] else MessagesOf(findings[0]) + ConstraintMessages(findings[1..])
  }

  /** The flattening distributes over concatenation of the findings. */
  lemma {:induction false} ConstraintMessagesAppend(a: seq<Finding>, b: seq<Finding>)
    ensures ConstraintMessages(a + b) == ConstraintMessages(a) + ConstraintMessages(b)
    decreases |a|
  {
    if a == [] {
      assert a + b == b;
    } else {
      assert (a + b)[1..] == a[1..] + b;
      ConstraintMessagesAppend(a[1..], b);
    }
  }

  /** A finding without constraints contributes no message. */
  lemma {:induction false} FindingWithoutConstraints(a: seq<Finding>, f: Finding, b: seq<Finding>)
    requires f.constraints.None?
    ensures ConstraintMessages(a + [f] + b) == ConstraintMessages(a + b)
  {
    ConstraintMessagesAppend(a + [f], b);
    ConstraintMessagesAppend(a, [f]);
    ConstraintMessagesAppend(a, b);
    assert ConstraintMessages([f]) == MessagesOf(f) + ConstraintMessages([]);
  }

  /** Every message in the payload is a constraint message of some finding, and vice versa. */
  lemma {:induction false} ConstraintMessagesMembership(findings: seq<Finding>, m: string)
    ensures m in ConstraintMessages(findings) <==> exists i :: 0 <= i < |findings| && m in MessagesOf(findings[i])
    decreases |findings|
  {
    if findings != [] {
      ConstraintMessagesMembership(findings[1..], m);
      if m in MessagesOf(findings[0]) {
        assert 0 < |findings| && m in MessagesOf(findings[0]);
      }
      if exists i :: 1 <= i < |findings| && m in MessagesOf(findings[i]) {
        var i :| 1 <= i < |findings| && m in MessagesOf(findings[i]);
        assert findings[1..][i - 1] == findings[i];
      }
      if exists i :: 0 <= i < |findings[1..]| && m in MessagesOf(findings[1..][i]) {
        var i :| 0 <= i < |findings[1..]| && m in MessagesOf(findings[1..][i]);
        assert findings[1..][i] == findings[i + 1];
      }
    }
  }

  /** `new ValidationError(errors)`. */
  function ValidationError(findings: seq<Finding>): (e: BaseError)
    ensures e.statusCode == 422 && e.message == "VALIDATION_ERROR"
    ensures e.data == Strings(ConstraintMessages(findings))
    ensures Truthy(e.data)
  {
    New(Errors.ValidationError(Strings(ConstraintMessages(findings))), None)
  }
}
