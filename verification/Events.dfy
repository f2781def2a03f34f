/** The events that nodes publish. */
module Events {

  /** Published when a memory is stored, and again when anti-entropy repairs a shard. */
  datatype MemoryStored = MemoryStored(memoryID: string, tenantID: string, agentID: string, content: string,
                                       embedding: seq<real>, memoryType: string, importance: real, version: int)
}
