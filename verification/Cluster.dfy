/** What every node of the cluster agrees on: roles, configured sizes and the rank check. */
module Cluster {
  import opened Bytes

  datatype Role = Server | Worker | Scheduler

  datatype Config = Config(serverNum: nat, workerNum: nat)
  {
    /** The rank check made before every send; the limits are 32-bit, so zero configured nodes accept every rank. */
    predicate AcceptsRank(role: Role, rank: nat) {
      match role
      case Server => rank <= (serverNum - 1) % U32_LIMIT
      case Worker => rank <= (workerNum - 1) % U32_LIMIT
      case Scheduler => true
    }
  }

  /** With at least one node of a role configured, exactly the ranks below their number are accepted. */
  lemma AcceptedRanks(cfg: Config, rank: nat)
    requires cfg.serverNum < U32_LIMIT && cfg.workerNum < U32_LIMIT && rank < U32_LIMIT
    ensures cfg.AcceptsRank(Server, rank) <==> cfg.serverNum == 0 || rank < cfg.serverNum
    ensures cfg.AcceptsRank(Worker, rank) <==> cfg.workerNum == 0 || rank < cfg.workerNum
    ensures cfg.AcceptsRank(Scheduler, rank)
  {
  }

  /** Whether `memcpy_s` copies `size` bytes into a buffer of that size. */
  predicate CopyAccepts(size: nat) {
    0 < size <= MEM_MAX_LEN
  }

  /** A shared pointer to a byte vector. */
  datatype Ptr = Null | Vec(bytes: seq<Byte>)

  /** The counter of `rank`, absent until it is first used. */
  function Counter(counters: map<nat, nat>, rank: nat): nat {
    if rank in counters then counters[rank] else 0
  }
}
