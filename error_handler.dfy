/**
 * `PipelineErrorHandler` (errors/error_handler.py): counts the errors and warnings the
 * pipeline reports and checks the shape of intermediate data. Logging, printing and the
 * timestamp of the summary are left to the environment.
 */
module ErrorHandler {
  import opened PyValues

  /** What validate_data accepts: a type test for 'list', 'dict' and 'str', truthiness for 'not_empty'. */
  predicate DataOk(data: Value, dataType: string) {
    if dataType == "list" then data.PyList?
    else if dataType == "dict" then data.PyDict?
    else if dataType == "str" then data.PyStr?
    else if dataType == "not_empty" then Truthy(data)
    else true
  }

  /** An unknown type name accepts everything. */
  lemma UnknownTypeAccepts(data: Value, dataType: string)
    requires dataType !in {"list", "dict", "str", "not_empty"}
    ensures DataOk(data, dataType)
  {
  }

  /** 'not_empty' rejects None, False, zero and every empty string, list and dict. */
  lemma NotEmptyRejects(data: Value)
    requires data.PyNone? || data == PyBool(false) || data == PyInt(0) || data == PyFloat(0.0)
      || data == PyStr("") || data == PyList(0) || data == PyDict(0)
    ensures !DataOk(data, "not_empty")
  {
  }

  /** The type tests do not look at the contents: an empty list is a list. */
  lemma TypeTestIgnoresContents(n: nat)
    ensures DataOk(PyList(n), "list") && DataOk(PyDict(n), "dict") && DataOk(PyStr(""), "str")
    ensures !DataOk(PyList(n), "dict") && !DataOk(PyDict(n), "list") && !DataOk(PyStr(""), "list")
  {
  }

  datatype Summary = Summary(errors: nat, warnings: nat)

  class PipelineErrorHandler {
    var errorCount: nat
    var warningCount: nat

    constructor ()
      ensures errorCount == 0 && warningCount == 0
    {
      errorCount := 0;
      warningCount := 0;
    }

    /**
     * handle_error: one more error; the traceback is logged for the first three errors only;
     * the answer is whether execution continues.
     */
    method HandleError(continueExecution: bool) returns (proceed: bool, tracebackLogged: bool)
      modifies this
      ensures errorCount == old(errorCount) + 1 && warningCount == old(warningCount)
      ensures proceed == continueExecution
      ensures tracebackLogged <==> errorCount <= 3
    {
      errorCount := errorCount + 1;
      tracebackLogged := errorCount <= 3;
      proceed := continueExecution;
    }

    /** handle_warning. */
    method HandleWarning()
      modifies this
      ensures warningCount == old(warningCount) + 1 && errorCount == old(errorCount)
    {
      warningCount := warningCount + 1;
    }

    /** validate_data: a rejection is reported as one warning. */
    method ValidateData(data: Value, dataType: string) returns (ok: bool)
      modifies this
      ensures ok == DataOk(data, dataType)
      ensures warningCount == old(warningCount) + (if ok then 0 else 1)
      ensures errorCount == old(errorCount)
    {
      if dataType == "list" && !data.PyList? {
        HandleWarning();
        return false;
      } else if dataType == "dict" && !data.PyDict? {
        HandleWarning();
        return false;
      } else if dataType == "str" && !data.PyStr? {
        HandleWarning();
        return false;
      } else if dataType == "not_empty" {
        if !Truthy(data) {
          HandleWarning();
          return false;
        }
      }
      return true;
    }

    /** get_summary, without its timestamp. */
    method GetSummary() returns (s: Summary)
      ensures s == Summary(errorCount, warningCount)
    {
      s := Summary(errorCount, warningCount);
    }
  }
}
