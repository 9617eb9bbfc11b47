/** The wait-status encoding of <sys/wait.h>, on the 32-bit words the C macros work on. */
module WaitStatus {

  type Status = bv32

  // WTERMSIG
  function TermSig(s: Status): Status { s & 0x7f }

  // WIFEXITED
  predicate IfExited(s: Status) { TermSig(s) == 0 }

  // WEXITSTATUS
  function ExitStatus(s: Status): Status { (s & 0xff00) >> 8 }

  // WIFSIGNALED: 127 marks a stopped child, which is neither exited nor signaled
  predicate IfSignaled(s: Status) { 1 <= TermSig(s) <= 126 }

  // W_EXITCODE
  function ExitCode(ret: Status, sig: Status): Status { (ret << 8) | sig }

  /** The statuses the kernel reports for a child that has died. */
  predicate OfDeadChild(s: Status) {
    if IfSignaled(s) then s & 0xffff_ff00 == 0 else s & 0xffff_00ff == 0
  }

  /** What a waiter should learn: the raw status without the core-dump bit. */
  function WithoutCore(s: Status): Status { s & 0xffff_ff7f }

  /** The code a waiter builds from the arguments of the Exited or Signaled message. */
  function SignalPathCode(s: Status): Status {
    if IfSignaled(s) then ExitCode(0, TermSig(s)) else ExitCode(ExitStatus(s), 0)
  }

  /** The code a waiter builds from the raw status kept in the hash table. */
  function TablePathCode(s: Status): Status {
    if IfExited(s) then ExitCode(ExitStatus(s), 0) else ExitCode(0, TermSig(s))
  }

  /** Both paths decode and re-encode a status to the same word: the raw one with the core bit clear. */
  lemma BothPathsAgree(s: Status)
    requires OfDeadChild(s)
    ensures SignalPathCode(s) == WithoutCore(s) == TablePathCode(s)
  {
    if IfSignaled(s) {
      assert s & 0xffff_ff00 == 0;
      assert s & 0xffff_ff7f == s & 0x7f;
      assert (0 << 8) | (s & 0x7f) == s & 0x7f;
    } else {
      assert ((s & 0xff00) >> 8) << 8 == s & 0xff00;
    }
  }

  /** A core dump is the only thing the decoded code forgets about a dead child. */
  lemma CodeForgetsOnlyCore(s: Status, t: Status)
    requires OfDeadChild(s) && OfDeadChild(t)
    ensures SignalPathCode(s) == SignalPathCode(t) <==> s | 0x80 == t | 0x80
  {
    BothPathsAgree(s);
    BothPathsAgree(t);
    assert (s | 0x80) & 0xffff_ff7f == s & 0xffff_ff7f;
    assert (t | 0x80) & 0xffff_ff7f == t & 0xffff_ff7f;
    assert (s & 0xffff_ff7f) | 0x80 == s | 0x80;
    assert (t & 0xffff_ff7f) | 0x80 == t | 0x80;
  }
}
