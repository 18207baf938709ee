/** ProcessRunner.ProcessResult: what running an external process gave back.
    Running the process itself is not modelled; a result is a value, and its
    final fields are the datatype's destructors. */
module ProcessRunner {
  import opened Text

  /** A Java int. */
  type Int32 = n: int | -0x8000_0000 <= n <= 0x7FFF_FFFF

  /** The exit code and the captured standard output and error, either of
      which may be null. */
  datatype ProcessResult = ProcessResult(exitCode: Int32, output: Option<string>, error: Option<string>)
  {
    /** isSuccess(): the process exited with status 0. */
    predicate IsSuccess() {
      exitCode == 0
    }
  }

  /** A result reports success exactly for exit status 0, whatever the two
      streams hold (null included). */
  lemma SuccessIffZero(code: Int32, output: Option<string>, error: Option<string>)
    ensures var r := ProcessResult(code, output, error);
      && (r.IsSuccess() <==> code == 0)
      && r.exitCode == code && r.output == output && r.error == error
  {
  }

  /** The extreme codes Integer.MAX_VALUE and Integer.MIN_VALUE are failures. */
  lemma ExtremeCodesFail(output: Option<string>, error: Option<string>)
    ensures !ProcessResult(INT_MAX, output, error).IsSuccess()
    ensures !ProcessResult(INT_MIN, output, error).IsSuccess()
  {
  }
}
