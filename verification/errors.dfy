/**
 * The ways an upload session fails. Each stands for the exception the
 * Java code lets escape at that point.
 */
module Errors {

  datatype Error =
    | UnsupportedScheme          // IllegalArgumentException: no port given and scheme is neither http nor https
    | SocketCreateFailed         // IllegalStateException wrapping the IOException of opening the socket
    | ContainerNotFound          // IllegalStateException: the create response status line mentions 404
    | NoSuchToken                // NoSuchElementException: the Id line has nothing after its first ':'
    | ExecCreateFailed           // IllegalStateException: no exec id was found in the create response
    | EndOfStream                // NullPointerException: readLine returned null and the result was used
    | InvalidHandshake(status: string)  // IOException: the start response is not the 101 status line
    | UnexpectedAck(line: string)       // IllegalStateException: the line after the headers is not "ok"
    | SocketClosed               // IOException: writing to a socket that is not open
    | IndexOutOfBounds           // IndexOutOfBoundsException: write(b, off, len) outside b
}
