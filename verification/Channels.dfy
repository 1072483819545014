module Channels {
  /** Capacity of the data and control channels between the threads of a user VM; a send waits while its
      channel is full. */
  const CHANNEL_CAPACITY := 1024
}
