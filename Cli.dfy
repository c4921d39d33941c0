/**
 * What the two notifier scripts share at the command line: the status with
 * which their argument check exits, and the header of pretend mode.
 */
module Cli {

  /** Exit status of argparse's `parser.error`, which both scripts use to reject their arguments. */
  const UsageErrorStatus: int := 2

  /** The header both scripts print before the text in pretend mode. */
  const PretendBanner: string := "\n\nTEXT that would be sent:\n"
}
